// Reusing the activation for a marked tail call changes nothing but the depth: the tail-calling run
// is the run of ordinary recursion under any depth limit that is enough for it, and it needs no
// more activations than ordinary recursion does, however many tail calls it makes.
module TailCalls {
  import opened Wrappers
  import opened MiniKryndel

  // The same program with tail calls, under a depth limit of its own.
  function Looping(c: Context, m: nat): Context { c.(tailCalls := true, maxDepth := m) }

  // Both runs stop short of the depth limit; ordinary recursion alone is enough where the
  // tail-calling run has as many activations left.
  predicate Deep<T>(c: Context, m: nat, d: nat, d': nat, r: Out<T>, r': Out<T>) {
    r != Fail(DepthLimit) && (r' != Fail(DepthLimit) || c.maxDepth - d <= m - d')
  }

  predicate DeepControl(c: Context, m: nat, d: nat, d': nat, r: Control, r': Control) {
    r != Abort(DepthLimit) && (r' != Abort(DepthLimit) || c.maxDepth - d <= m - d')
  }

  lemma SameContext(c: Context, m: nat)
    ensures Looping(c, m).maxDepth == m
  {}

  lemma {:induction false} SameValue(c: Context, m: nat, e: Expr, env: Scopes, d: nat, d': nat, s: State)
    requires !c.tailCalls && d <= c.maxDepth && d' <= m
    ensures var r := Eval(c, e, env, d, s); var r' := Eval(Looping(c, m), e, env, d', s); Deep(c, m, d, d', r.out, r'.out) ==> r' == r
    decreases s.Total(), c.maxDepth - d, 0, e
  {
    match e
    case Const(_) =>
    case Var(_) =>
    case Binary(_, l, r) =>
      SameValue(c, m, l, env, d, d', s);
      SameValue(c, m, r, env, d, d', Eval(c, l, env, d, s).st);
    case Propagate(x) => SameValue(c, m, x, env, d, d', s);
    case Call(f, _, _, _) =>
      if d < c.maxDepth && d' < m {
        SameFrame(c, m, e, env, d, d', s);
        var frame := EvalFrame(c, e, env, d, s);
        if frame.out.Val? {
          SameCall(c, m, f, frame.out.v, d + 1, d' + 1, frame.st);
        }
      }
  }

  lemma {:induction false} SameFrame(c: Context, m: nat, call: Expr, env: Scopes, d: nat, d': nat, s: State)
    requires !c.tailCalls && d <= c.maxDepth && d' <= m && call.Call?
    ensures var r := EvalFrame(c, call, env, d, s); var r' := EvalFrame(Looping(c, m), call, env, d', s); Deep(c, m, d, d', r.out, r'.out) ==> r' == r
    decreases s.Total(), c.maxDepth - d, 0, call, 0
  {
    if FrameSize(call) <= K_MAX_ARGS {
      match call.receiver
      case None => SameList(c, m, call.args, env, d, d', s);
      case Some(e) =>
        SameValue(c, m, e, env, d, d', s);
        SameList(c, m, call.args, env, d, d', Eval(c, e, env, d, s).st);
    }
  }

  lemma {:induction false} SameList(c: Context, m: nat, es: seq<Expr>, env: Scopes, d: nat, d': nat, s: State)
    requires !c.tailCalls && d <= c.maxDepth && d' <= m
    ensures var r := EvalList(c, es, env, d, s); var r' := EvalList(Looping(c, m), es, env, d', s); Deep(c, m, d, d', r.out, r'.out) ==> r' == r
    decreases s.Total(), c.maxDepth - d, 0, es
  {
    if es != [] {
      SameValue(c, m, es[0], env, d, d', s);
      SameList(c, m, es[1..], env, d, d', Eval(c, es[0], env, d, s).st);
    }
  }

  // The result of a call is the result of ordinary recursion.
  lemma {:induction false} SameCall(c: Context, m: nat, f: string, vals: seq<Value>, b: nat, b': nat, s: State)
    requires !c.tailCalls && b <= c.maxDepth && b' <= m
    ensures var r := Invoke(c, f, vals, b, s); var r' := Invoke(Looping(c, m), f, vals, b', s); Deep(c, m, b, b', r.out, r'.out) ==> r' == r
    decreases s.Total(), c.maxDepth - b, 2
  {
    if f in c.program {
      var fun := c.program[f];
      var off := if fun.receiver then 1 else 0;
      if off <= |vals| <= off + |fun.params| {
        var self: map<string, Value> := if fun.receiver then map["self" := vals[0]] else map[];
        SameParams(c, m, fun.params, 0, off, vals, self, b, b', s);
        var scope := BindParams(c, fun.params, 0, off, vals, self, b, s);
        if scope.out.Val? {
          SameExec(c, m, fun.body, [scope.out.v, map[]], b, b', scope.st);
        }
      }
    }
  }

  lemma {:induction false} SameParams(c: Context, m: nat, params: seq<Param>, i: nat, off: nat, vals: seq<Value>, scope: map<string, Value>, b: nat, b': nat, s: State)
    requires !c.tailCalls && b <= c.maxDepth && b' <= m && i <= |params|
    ensures var r := BindParams(c, params, i, off, vals, scope, b, s);
            var r' := BindParams(Looping(c, m), params, i, off, vals, scope, b', s); Deep(c, m, b, b', r.out, r'.out) ==> r' == r
    decreases s.Total(), c.maxDepth - b, 1, |params| - i
  {
    if i < |params| {
      if off + i < |vals| {
        SameParams(c, m, params, i + 1, off, vals, scope[params[i].name := vals[off + i]], b, b', s);
      } else if params[i].default.Some? {
        var e := params[i].default.value;
        SameValue(c, m, e, [scope], b, b', s);
        var a := Eval(c, e, [scope], b, s);
        if a.out.Val? {
          SameParams(c, m, params, i + 1, off, vals, scope[params[i].name := a.out.v], b, b', a.st);
        }
      }
    }
  }

  lemma {:induction false} SameExec(c: Context, m: nat, body: seq<Stmt>, env: Scopes, d: nat, d': nat, s: State)
    requires !c.tailCalls && d <= c.maxDepth && d' <= m && env != []
    ensures var r := Exec(c, body, env, d, s); var r' := Exec(Looping(c, m), body, env, d', s); DeepControl(c, m, d, d', r.ctl, r'.ctl) ==> r' == r
    decreases s.Total(), c.maxDepth - d, 0, body, 0
  {
    if body != [] {
      SameStep(c, m, body[0], env, d, d', s);
      var head := ExecStmt(c, body[0], env, d, s);
      if head.ctl == Next {
        SameExec(c, m, body[1..], head.env, d, d', head.st);
      }
    }
  }

  lemma {:induction false} SameBlock(c: Context, m: nat, body: seq<Stmt>, env: Scopes, d: nat, d': nat, s: State)
    requires !c.tailCalls && d <= c.maxDepth && d' <= m && env != []
    ensures var r := ExecBlock(c, body, env, d, s); var r' := ExecBlock(Looping(c, m), body, env, d', s); DeepControl(c, m, d, d', r.ctl, r'.ctl) ==> r' == r
    decreases s.Total(), c.maxDepth - d, 0, body, 1
  {
    SameExec(c, m, body, env + [map[]], d, d', s);
  }

  lemma {:induction false} SameStep(c: Context, m: nat, stmt: Stmt, env: Scopes, d: nat, d': nat, s0: State)
    requires !c.tailCalls && d <= c.maxDepth && d' <= m && env != []
    ensures var r := ExecStmt(c, stmt, env, d, s0); var r' := ExecStmt(Looping(c, m), stmt, env, d', s0); DeepControl(c, m, d, d', r.ctl, r'.ctl) ==> r' == r
    decreases s0.Total(), c.maxDepth - d, 0, stmt
  {
    if s0.steps > 0 {
      var s := s0.(steps := s0.steps - 1);
      match stmt
      case Let(_, e) => SameValue(c, m, e, env, d, d', s);
      case Assign(_, e) => SameValue(c, m, e, env, d, d', s);
      case ExprStmt(e) => SameValue(c, m, e, env, d, d', s);
      case If(cond, a, b) =>
        SameValue(c, m, cond, env, d, d', s);
        var t := Eval(c, cond, env, d, s).st;
        SameBlock(c, m, a, env, d, d', t);
        SameBlock(c, m, b, env, d, d', t);
      case While(cond, body) => SameLoop(c, m, cond, body, env, d, d', s);
      case Break =>
      case Continue =>
      case Return(None) =>
      case Return(Some(e)) => SameReturn(c, m, e, env, d, d', s);
    }
  }

  lemma {:induction false} SameReturn(c: Context, m: nat, e: Expr, env: Scopes, d: nat, d': nat, s: State)
    requires !c.tailCalls && d <= c.maxDepth && d' <= m && env != []
    ensures var r := RunStmt(c, Return(Some(e)), env, d, s);
            var r' := RunStmt(Looping(c, m), Return(Some(e)), env, d', s); DeepControl(c, m, d, d', r.ctl, r'.ctl) ==> r' == r
    decreases s.Total(), c.maxDepth - d, 3
  {
    if e.Call? && e.tail {
      if d < c.maxDepth {
        SameFrame(c, m, e, env, d, d', s);
        var frame := EvalFrame(c, e, env, d, s);
        if frame.out.Val? {
          SameCall(c, m, e.target, frame.out.v, d + 1, d', frame.st);
        }
      }
    } else {
      SameValue(c, m, e, env, d, d', s);
    }
  }

  lemma {:induction false} SameLoop(c: Context, m: nat, cond: Expr, body: seq<Stmt>, env: Scopes, d: nat, d': nat, s: State)
    requires !c.tailCalls && d <= c.maxDepth && d' <= m && env != []
    ensures var r := ExecLoop(c, cond, body, env, d, s);
            var r' := ExecLoop(Looping(c, m), cond, body, env, d', s); DeepControl(c, m, d, d', r.ctl, r'.ctl) ==> r' == r
    decreases s.Total(), c.maxDepth - d, 1
  {
    hide Eval, EvalFrame, EvalList, Invoke, BindParams, Exec, ExecBlock, ExecStmt, RunStmt, ExecTail, Looping;
    hide ExecLoop;
    SameContext(c, m);
    LoopUnfolds(c, cond, body, env, d, s);
    LoopUnfolds(Looping(c, m), cond, body, env, d', s);
    SameValue(c, m, cond, env, d, d', s);
    var a := Eval(c, cond, env, d, s);
    if a.out.Val? && a.out.v == Bool(true) && a.st.fuel > 0 {
      var t := a.st.(fuel := a.st.fuel - 1);
      SameBlock(c, m, body, env, d, d', t);
      var r := ExecBlock(c, body, env, d, t);
      if r.ctl == Next || r.ctl == Cont {
        SameLoop(c, m, cond, body, r.env, d, d', r.st);
      }
    }
  }

  lemma LoopUnfolds(c: Context, cond: Expr, body: seq<Stmt>, env: Scopes, d: nat, s: State)
    requires d <= c.maxDepth && env != []
    ensures var a := Eval(c, cond, env, d, s);
      var r := ExecLoop(c, cond, body, env, d, s);
      if a.out == Val(Bool(true)) && a.st.fuel > 0 then
        var b := ExecBlock(c, body, env, d, a.st.(fuel := a.st.fuel - 1));
        if b.ctl == Brk then r == b.(ctl := Next)
        else if b.ctl == Next || b.ctl == Cont then r == ExecLoop(c, cond, body, b.env, d, b.st)
        else r == b
      else
        r == StmtResult(if !a.out.Val? then Stopped(a.out) else if !a.out.v.Bool? then Abort(Trap) else if !a.out.v.b then Next else Abort(OutOfFuel), env, a.st)
  {
    hide Eval, ExecBlock;
  }

  // ---- depth used by tail calls -----------------------------------------------------------------

  // Every call in `e` goes to a function of rank below `k`.
  predicate CallsBelow(e: Expr, rank: string -> nat, k: nat)
    decreases e, 1
  {
    match e
    case Const(_) => true
    case Var(_) => true
    case Binary(_, l, r) => CallsBelow(l, rank, k) && CallsBelow(r, rank, k)
    case Propagate(x) => CallsBelow(x, rank, k)
    case Call(f, _, _, _) => rank(f) < k && FrameBelow(e, rank, k)
  }

  predicate FrameBelow(call: Expr, rank: string -> nat, k: nat)
    requires call.Call?
    decreases call, 0
  {
    (call.receiver.Some? ==> CallsBelow(call.receiver.value, rank, k)) && forall x :: x in call.args ==> CallsBelow(x, rank, k)
  }

  // Only a marked tail call may stay at the rank of its own function.
  predicate StmtBelow(s: Stmt, rank: string -> nat, k: nat) {
    match s
    case Let(_, e) => CallsBelow(e, rank, k)
    case Assign(_, e) => CallsBelow(e, rank, k)
    case ExprStmt(e) => CallsBelow(e, rank, k)
    case If(cond, a, b) => CallsBelow(cond, rank, k) && (forall x :: x in a ==> StmtBelow(x, rank, k)) && forall x :: x in b ==> StmtBelow(x, rank, k)
    case While(cond, body) => CallsBelow(cond, rank, k) && forall x :: x in body ==> StmtBelow(x, rank, k)
    case Return(Some(e)) => if e.Call? && e.tail then rank(e.target) <= k && FrameBelow(e, rank, k) else CallsBelow(e, rank, k)
    case _ => true
  }

  predicate Ranked(program: map<string, Function>, rank: string -> nat) {
    forall f :: f in program ==>
      && (forall x :: x in program[f].body ==> StmtBelow(x, rank, rank(f)))
      && forall p :: p in program[f].params && p.default.Some? ==> CallsBelow(p.default.value, rank, rank(f))
  }

  lemma {:induction false} ValueFits(c: Context, e: Expr, rank: string -> nat, k: nat, env: Scopes, d: nat, s: State)
    requires c.tailCalls && Ranked(c.program, rank) && CallsBelow(e, rank, k) && d + k <= c.maxDepth
    ensures Eval(c, e, env, d, s).out != Fail(DepthLimit)
    decreases s.Total(), c.maxDepth - d, 0, e
  {
    match e
    case Const(_) =>
    case Var(_) => NoDepthError(env, s.globals, e.name);
    case Binary(_, l, r) =>
      ValueFits(c, l, rank, k, env, d, s);
      ValueFits(c, r, rank, k, env, d, Eval(c, l, env, d, s).st);
    case Propagate(x) => ValueFits(c, x, rank, k, env, d, s);
    case Call(f, _, _, _) =>
      FrameFits(c, e, rank, k, env, d, s);
      var frame := EvalFrame(c, e, env, d, s);
      if frame.out.Val? { CallFits(c, f, rank, frame.out.v, d + 1, frame.st); }
  }

  lemma {:induction false} NoDepthError(env: Scopes, globals: map<string, Value>, x: string)
    ensures Lookup(env, globals, x) != Fail(DepthLimit)
  {
    if env != [] { NoDepthError(env[..|env| - 1], globals, x); }
  }

  lemma {:induction false} FrameFits(c: Context, call: Expr, rank: string -> nat, k: nat, env: Scopes, d: nat, s: State)
    requires c.tailCalls && Ranked(c.program, rank) && call.Call? && FrameBelow(call, rank, k) && d + k <= c.maxDepth
    ensures EvalFrame(c, call, env, d, s).out != Fail(DepthLimit)
    decreases s.Total(), c.maxDepth - d, 0, call, 0
  {
    match call.receiver
    case None => ListFits(c, call.args, rank, k, env, d, s);
    case Some(e) =>
      ValueFits(c, e, rank, k, env, d, s);
      ListFits(c, call.args, rank, k, env, d, Eval(c, e, env, d, s).st);
  }

  lemma {:induction false} ListFits(c: Context, es: seq<Expr>, rank: string -> nat, k: nat, env: Scopes, d: nat, s: State)
    requires c.tailCalls && Ranked(c.program, rank) && (forall x :: x in es ==> CallsBelow(x, rank, k)) && d + k <= c.maxDepth
    ensures EvalList(c, es, env, d, s).out != Fail(DepthLimit)
    decreases s.Total(), c.maxDepth - d, 0, es
  {
    if es != [] {
      ValueFits(c, es[0], rank, k, env, d, s);
      ListFits(c, es[1..], rank, k, env, d, Eval(c, es[0], env, d, s).st);
    }
  }

  lemma {:induction false} CallFits(c: Context, f: string, rank: string -> nat, vals: seq<Value>, b: nat, s: State)
    requires c.tailCalls && Ranked(c.program, rank) && b + rank(f) <= c.maxDepth
    ensures Invoke(c, f, vals, b, s).out != Fail(DepthLimit)
    decreases s.Total(), c.maxDepth - b, 2
  {
    if f in c.program {
      var fun := c.program[f];
      var off := if fun.receiver then 1 else 0;
      if off <= |vals| <= off + |fun.params| {
        var self: map<string, Value> := if fun.receiver then map["self" := vals[0]] else map[];
        ParamsFit(c, fun.params, rank, rank(f), 0, off, vals, self, b, s);
        var scope := BindParams(c, fun.params, 0, off, vals, self, b, s);
        if scope.out.Val? { BodyFits(c, fun.body, rank, rank(f), [scope.out.v, map[]], b, scope.st); }
      }
    }
  }

  lemma {:induction false} ParamsFit(c: Context, params: seq<Param>, rank: string -> nat, k: nat, i: nat, off: nat, vals: seq<Value>, scope: map<string, Value>, b: nat, s: State)
    requires c.tailCalls && Ranked(c.program, rank) && b + k <= c.maxDepth && i <= |params|
    requires forall p :: p in params && p.default.Some? ==> CallsBelow(p.default.value, rank, k)
    ensures BindParams(c, params, i, off, vals, scope, b, s).out != Fail(DepthLimit)
    decreases s.Total(), c.maxDepth - b, 1, |params| - i
  {
    if i < |params| {
      if off + i < |vals| {
        ParamsFit(c, params, rank, k, i + 1, off, vals, scope[params[i].name := vals[off + i]], b, s);
      } else if params[i].default.Some? {
        var e := params[i].default.value;
        ValueFits(c, e, rank, k, [scope], b, s);
        var a := Eval(c, e, [scope], b, s);
        if a.out.Val? { ParamsFit(c, params, rank, k, i + 1, off, vals, scope[params[i].name := a.out.v], b, a.st); }
      }
    }
  }

  lemma {:induction false} BodyFits(c: Context, body: seq<Stmt>, rank: string -> nat, k: nat, env: Scopes, d: nat, s: State)
    requires c.tailCalls && Ranked(c.program, rank) && (forall x :: x in body ==> StmtBelow(x, rank, k)) && d + k <= c.maxDepth && env != []
    ensures Exec(c, body, env, d, s).ctl != Abort(DepthLimit)
    decreases s.Total(), c.maxDepth - d, 0, body, 0
  {
    if body != [] {
      StepFits(c, body[0], rank, k, env, d, s);
      var head := ExecStmt(c, body[0], env, d, s);
      if head.ctl == Next { BodyFits(c, body[1..], rank, k, head.env, d, head.st); }
    }
  }

  lemma {:induction false} BlockFits(c: Context, body: seq<Stmt>, rank: string -> nat, k: nat, env: Scopes, d: nat, s: State)
    requires c.tailCalls && Ranked(c.program, rank) && (forall x :: x in body ==> StmtBelow(x, rank, k)) && d + k <= c.maxDepth && env != []
    ensures ExecBlock(c, body, env, d, s).ctl != Abort(DepthLimit)
    decreases s.Total(), c.maxDepth - d, 0, body, 1
  {
    BodyFits(c, body, rank, k, env + [map[]], d, s);
  }

  lemma {:induction false} StepFits(c: Context, stmt: Stmt, rank: string -> nat, k: nat, env: Scopes, d: nat, s0: State)
    requires c.tailCalls && Ranked(c.program, rank) && StmtBelow(stmt, rank, k) && d + k <= c.maxDepth && env != []
    ensures ExecStmt(c, stmt, env, d, s0).ctl != Abort(DepthLimit)
    decreases s0.Total(), c.maxDepth - d, 0, stmt
  {
    if s0.steps > 0 {
      var s := s0.(steps := s0.steps - 1);
      match stmt
      case Let(_, e) => ValueFits(c, e, rank, k, env, d, s);
      case Assign(_, e) => ValueFits(c, e, rank, k, env, d, s);
      case ExprStmt(e) => ValueFits(c, e, rank, k, env, d, s);
      case If(cond, a, b) =>
        ValueFits(c, cond, rank, k, env, d, s);
        var t := Eval(c, cond, env, d, s).st;
        BlockFits(c, a, rank, k, env, d, t);
        BlockFits(c, b, rank, k, env, d, t);
      case While(cond, body) => LoopFits(c, cond, body, rank, k, env, d, s);
      case Return(Some(e)) =>
        if e.Call? && e.tail {
          TailFits(c, e, rank, k, env, d, s);
          assert RunStmt(c, stmt, env, d, s) == ExecTail(c, e, env, d, s);
        } else {
          ValueFits(c, e, rank, k, env, d, s);
        }
      case _ =>
    }
  }

  lemma {:induction false} TailFits(c: Context, call: Expr, rank: string -> nat, k: nat, env: Scopes, d: nat, s: State)
    requires c.tailCalls && Ranked(c.program, rank) && d + k <= c.maxDepth && env != []
    requires call.Call? && rank(call.target) <= k && FrameBelow(call, rank, k)
    ensures ExecTail(c, call, env, d, s).ctl != Abort(DepthLimit)
    decreases s.Total(), c.maxDepth - d, 3
  {
    hide Eval, EvalFrame, EvalList, Invoke, BindParams, Exec, ExecBlock, ExecStmt, RunStmt;
    FrameFits(c, call, rank, k, env, d, s);
    var frame := EvalFrame(c, call, env, d, s);
    if frame.out.Val? { CallFits(c, call.target, rank, frame.out.v, d, frame.st); }
  }

  lemma {:induction false} LoopFits(c: Context, cond: Expr, body: seq<Stmt>, rank: string -> nat, k: nat, env: Scopes, d: nat, s: State)
    requires c.tailCalls && Ranked(c.program, rank) && d + k <= c.maxDepth && env != []
    requires CallsBelow(cond, rank, k) && forall x :: x in body ==> StmtBelow(x, rank, k)
    ensures ExecLoop(c, cond, body, env, d, s).ctl != Abort(DepthLimit)
    decreases s.Total(), c.maxDepth - d, 1
  {
    hide Eval, EvalFrame, EvalList, Invoke, BindParams, Exec, ExecBlock, ExecStmt, RunStmt, ExecTail;
    ValueFits(c, cond, rank, k, env, d, s);
    var a := Eval(c, cond, env, d, s);
    if a.out.Val? && a.out.v == Bool(true) && a.st.fuel > 0 {
      var t := a.st.(fuel := a.st.fuel - 1);
      BlockFits(c, body, rank, k, env, d, t);
      var r := ExecBlock(c, body, env, d, t);
      if r.ctl == Next || r.ctl == Cont { LoopFits(c, cond, body, rank, k, r.env, d, r.st); }
    }
  }

  // In a program whose other calls go down in rank, a run needs one activation for each rank and
  // none for its marked tail calls, however many it makes: with `1 + rank(f)` activations it never
  // meets the limit, and what it computes is what ordinary recursion computes under any limit
  // that is enough for that.
  lemma TailCallsUseNoDepth(c: Context, rank: string -> nat, f: string, vals: seq<Value>, s: State)
    requires !c.tailCalls && c.maxDepth > 0 && Ranked(c.program, rank)
    ensures var r := Invoke(Looping(c, 1 + rank(f)), f, vals, 1, s);
      && r.out != Fail(DepthLimit)
      && (Invoke(c, f, vals, 1, s).out != Fail(DepthLimit) ==> r == Invoke(c, f, vals, 1, s))
  {
    hide Invoke;
    CallFits(Looping(c, 1 + rank(f)), f, rank, vals, 1, s);
    SameCall(c, 1 + rank(f), f, vals, 1, 1, s);
  }

  // ---- a function that counts down --------------------------------------------------------------

  // fn down(n) { if n < 1 { return n } return down(n - 1) }
  const TEST: Expr := Binary(Less, Var("n"), Const(Int(1)))
  const PREVIOUS: Expr := Binary(Sub, Var("n"), Const(Int(1)))
  const SELF_CALL: Expr := Call("down", None, [PREVIOUS], true)
  const DOWN: Function :=
    Function(false, [Param("n", None)], [If(TEST, [Return(Some(Var("n")))], []), Return(Some(SELF_CALL))])

  function Countdown(tailCalls: bool): Context {
    Context(map["down" := DOWN], 1, tailCalls)
  }

  function Frame(n: int): Scopes { [map["n" := Int(n)], map[]] }

  // One activation is enough for any number of self tail calls; ordinary recursion needs one for
  // each.
  lemma {:induction false} CountdownNeedsNoDepth(n: nat, s: State)
    requires InRange(n) && s.steps >= 2 * (n + 1)
    ensures Invoke(Countdown(true), "down", [Int(n)], 1, s).out == Val(Int(0))
    ensures n > 0 ==> Invoke(Countdown(false), "down", [Int(n)], 1, s).out == Fail(DepthLimit)
    decreases n
  {
    DownBody(Countdown(true), n, s);
    DownBody(Countdown(false), n, s);
    DownTest(Countdown(true), n, s);
    DownTest(Countdown(false), n, s);
    if n > 0 {
      DownCall(Countdown(true), n, s.(steps := s.steps - 1));
      DownCall(Countdown(false), n, s.(steps := s.steps - 1));
      CountdownNeedsNoDepth(n - 1, s.(steps := s.steps - 2));
    }
  }

  lemma DownBody(c: Context, n: nat, s: State)
    requires c == Countdown(c.tailCalls) && s.steps > 0
    ensures var head := ExecStmt(c, DOWN.body[0], Frame(n), 1, s);
      var r := Invoke(c, "down", [Int(n)], 1, s);
      if head.ctl != Next then r == Result(Returned(head.ctl), head.st)
      else var last := ExecStmt(c, DOWN.body[1], head.env, 1, head.st);
        last.ctl != Next ==> r == Result(Returned(last.ctl), last.st)
  {
    var scope: map<string, Value> := map["n" := Int(n)];
    var self: map<string, Value> := map[];
    assert self["n" := Int(n)] == scope;
    assert BindParams(c, DOWN.params, 1, 0, [Int(n)], scope, 1, s) == Result(Val(scope), s);
    assert BindParams(c, DOWN.params, 0, 0, [Int(n)], self, 1, s) == Result(Val(scope), s);
    assert DOWN.body[1..] == [DOWN.body[1]];
    var head := ExecStmt(c, DOWN.body[0], Frame(n), 1, s);
    if head.ctl == Next {
      OneStatement(c, DOWN.body[1], head.env, 1, head.st);
    }
  }

  lemma OneStatement(c: Context, stmt: Stmt, env: Scopes, d: nat, s: State)
    requires d <= c.maxDepth && env != []
    ensures Exec(c, [stmt], env, d, s) == ExecStmt(c, stmt, env, d, s)
  {
    var head := ExecStmt(c, stmt, env, d, s);
    if head.ctl == Next {
      assert [stmt][1..] == [];
      assert Exec(c, [], head.env, d, head.st) == head;
    }
  }

  lemma DownTest(c: Context, n: nat, s: State)
    requires c == Countdown(c.tailCalls) && s.steps >= 2
    ensures ExecStmt(c, DOWN.body[0], Frame(n), 1, s) ==
      if n == 0 then StmtResult(Ret(Int(0)), Frame(n), s.(steps := s.steps - 2)) else StmtResult(Next, Frame(n), s.(steps := s.steps - 1))
  {
    hide ExecBlock, Eval;
    var env := Frame(n);
    var s1 := s.(steps := s.steps - 1);
    DownCondition(c, n, s1);
    DownReturn(c, n, s1);
    var cond := DOWN.body[0];
    assert cond == If(TEST, [Return(Some(Var("n")))], []);
    assert RunStmt(c, cond, env, 1, s1) == ExecBlock(c, if n < 1 then [Return(Some(Var("n")))] else [], env, 1, s1);
  }

  lemma DownCondition(c: Context, n: nat, s: State)
    requires c == Countdown(c.tailCalls)
    ensures Eval(c, TEST, Frame(n), 1, s) == Result(Val(Bool(n < 1)), s)
  {
    Parameter(n, s.globals);
    assert Eval(c, Var("n"), Frame(n), 1, s) == Result(Val(Int(n)), s);
  }

  lemma DownReturn(c: Context, n: nat, s: State)
    requires c == Countdown(c.tailCalls) && s.steps >= 1
    ensures ExecBlock(c, [], Frame(n), 1, s) == StmtResult(Next, Frame(n), s)
    ensures ExecBlock(c, [Return(Some(Var("n")))], Frame(n), 1, s) == StmtResult(Ret(Int(n)), Frame(n), s.(steps := s.steps - 1))
  {
    var env := Frame(n);
    var inner := env + [map[]];
    var ret := Return(Some(Var("n")));
    var t := s.(steps := s.steps - 1);
    Parameter(n, s.globals);
    assert inner[..2] == env;
    assert Eval(c, Var("n"), inner, 1, t).out == Val(Int(n));
    assert ExecStmt(c, ret, inner, 1, s) == StmtResult(Ret(Int(n)), inner, t);
    OneStatement(c, ret, inner, 1, s);
  }

  lemma DownCall(c: Context, n: nat, s: State)
    requires c == Countdown(c.tailCalls) && s.steps >= 1 && InRange(n) && n > 0
    ensures var r := ExecStmt(c, DOWN.body[1], Frame(n), 1, s);
      var t := s.(steps := s.steps - 1);
      var a := Invoke(c, "down", [Int(n - 1)], 1, t);
      if c.tailCalls then r.ctl == (if a.out.Val? then Ret(a.out.v) else Stopped(a.out)) && r.st == a.st
      else r.ctl == Abort(DepthLimit)
  {
    var env := Frame(n);
    Parameter(n, s.globals);
    var t := s.(steps := s.steps - 1);
    assert Eval(c, Var("n"), env, 1, t) == Result(Val(Int(n)), t);
    assert Eval(c, PREVIOUS, env, 1, t) == Result(Val(Int(n - 1)), t);
    assert [PREVIOUS][1..] == [];
    assert EvalList(c, [], env, 1, t) == Result(Val([]), t);
    assert [Int(n - 1)] + [] == [Int(n - 1)];
    assert EvalList(c, [PREVIOUS], env, 1, t) == Result(Val([Int(n - 1)]), t);
    assert EvalFrame(c, SELF_CALL, env, 1, t) == Result(Val([Int(n - 1)]), t);
    if c.tailCalls {
      assert DOWN.body[1] == Return(Some(SELF_CALL));
      assert ExecStmt(c, Return(Some(SELF_CALL)), env, 1, s) == ExecTail(c, SELF_CALL, env, 1, t);
    } else {
      assert Eval(c, SELF_CALL, env, 1, t).out == Fail(DepthLimit);
    }
  }

  lemma Parameter(n: int, globals: map<string, Value>)
    ensures Lookup(Frame(n), globals, "n") == Val(Int(n))
    ensures Lookup(Frame(n) + [map[]], globals, "n") == Val(Int(n))
  {
    var m: map<string, Value> := map["n" := Int(n)];
    assert Frame(n)[..1] == [m] && (Frame(n) + [map[]])[..2] == Frame(n);
    assert Lookup([m], globals, "n") == Val(Int(n));
  }
}
