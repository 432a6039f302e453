// The part of Kryndel that the native backend's calling convention carries: strict expressions,
// calls with an optional receiver and omitted trailing defaults, `?`, blocks, loops and `return`.
// The evaluator below is the specification: ordinary recursion, one activation per call.
module MiniKryndel {

  import opened Wrappers

  datatype Value =
    | Nil
    | Int(i: int)
    | Bool(b: bool)
    | Absent
    | Present(inner: Value)

  datatype Op = Add | Sub | Mul | Less | Equal

  datatype Expr =
    | Const(v: Value)
    | Var(name: string)
    | Binary(op: Op, left: Expr, right: Expr)
    | Call(target: string, receiver: Option<Expr>, args: seq<Expr>, tail: bool)
    | Propagate(operand: Expr)

  datatype Stmt =
    | Let(name: string, init: Expr)
    | Assign(name: string, value: Expr)
    | ExprStmt(e: Expr)
    | If(cond: Expr, thenBody: seq<Stmt>, elseBody: seq<Stmt>)
    | While(cond: Expr, body: seq<Stmt>)
    | Return(result: Option<Expr>)
    | Break
    | Continue

  datatype Param = Param(name: string, default: Option<Expr>)

  datatype Function = Function(receiver: bool, params: seq<Param>, body: seq<Stmt>)

  // `Undefined` stands for everything the checker rules out (an unknown name, a wrong argument
  // count, a non-Bool condition) and for a call of more than K_MAX_ARGS arguments, which the
  // emitted frame cannot hold.
  datatype Error = DepthLimit | StepLimit | OutOfFuel | Trap | Undefined

  datatype Out<+T> = Val(v: T) | Early(early: Value) | Fail(error: Error)

  // What the run threads through: the instruction budget of k_step, a bound on loop iterations
  // (k_step counts statements, not iterations), and the file-scope bindings.
  datatype State = State(steps: nat, fuel: nat, globals: map<string, Value>)
  {
    function Total(): nat { steps + fuel }
  }

  datatype Result<+T> = Result(out: Out<T>, st: State)

  datatype Control = Next | Brk | Cont | Ret(v: Value) | Abort(error: Error)

  type Scopes = seq<map<string, Value>>

  datatype StmtResult = StmtResult(ctl: Control, env: Scopes, st: State)

  // With `tailCalls` a marked `return f(...)` reuses the caller's activation; without it every
  // call is an ordinary nested call.
  datatype Context = Context(program: map<string, Function>, maxDepth: nat, tailCalls: bool)

  const K_MAX_ARGS: nat := 64

  predicate InRange(i: int) { -0x8000_0000_0000_0000 <= i < 0x8000_0000_0000_0000 }

  function Checked(i: int): Out<Value> {
    if InRange(i) then Val(Int(i)) else Fail(Trap)
  }

  function Apply(op: Op, l: Value, r: Value): Out<Value> {
    if op == Equal then Val(Bool(l == r))
    else if !l.Int? || !r.Int? then Fail(Undefined)
    else match op
      case Add => Checked(l.i + r.i)
      case Sub => Checked(l.i - r.i)
      case Mul => Checked(l.i * r.i)
      case Less => Val(Bool(l.i < r.i))
  }

  // Innermost scope last; a name that no scope binds is a file-scope binding.
  function Lookup(env: Scopes, globals: map<string, Value>, x: string): Out<Value> {
    if env == [] then
      if x in globals then Val(globals[x]) else Fail(Undefined)
    else
      var top := env[|env| - 1];
      if x in top then Val(top[x]) else Lookup(env[..|env| - 1], globals, x)
  }

  function Store(env: Scopes, globals: map<string, Value>, x: string, v: Value): (r: Option<(Scopes, map<string, Value>)>)
    ensures r.Some? ==> |r.value.0| == |env|
  {
    if env == [] then
      if x in globals then Some((env, globals[x := v])) else None
    else
      var top := env[|env| - 1];
      if x in top then Some((env[..|env| - 1] + [top[x := v]], globals))
      else match Store(env[..|env| - 1], globals, x, v)
        case None => None
        case Some(p) => Some((p.0 + [top], p.1))
  }

  function Bind(env: Scopes, x: string, v: Value): (r: Scopes)
    requires env != []
    ensures |r| == |env|
  {
    env[|env| - 1 := env[|env| - 1][x := v]]
  }

  function Opened(v: Value): Out<Value> {
    match v
    case Present(inner) => Val(inner)
    case Absent => Early(Absent)
    case _ => Fail(Undefined)
  }

  function Eval(c: Context, e: Expr, env: Scopes, d: nat, s: State): (r: Result<Value>)
    requires d <= c.maxDepth
    ensures r.st.Total() <= s.Total()
    decreases s.Total(), c.maxDepth - d, 0, e
  {
    match e
    case Const(v) => Result(Val(v), s)
    case Var(x) => Result(Lookup(env, s.globals, x), s)
    case Binary(op, l, r) =>
      var a := Eval(c, l, env, d, s);
      if !a.out.Val? then a else
      var b := Eval(c, r, env, d, a.st);
      if !b.out.Val? then b else
      Result(Apply(op, a.out.v, b.out.v), b.st)
    case Propagate(x) =>
      var a := Eval(c, x, env, d, s);
      if !a.out.Val? then a else Result(Opened(a.out.v), a.st)
    case Call(f, receiver, args, _) =>
      if d >= c.maxDepth then Result(Fail(DepthLimit), s) else
      var frame := EvalFrame(c, e, env, d, s);
      match frame.out
      case Val(vals) => Invoke(c, f, vals, d + 1, frame.st)
      case Early(v) => Result(Early(v), frame.st)
      case Fail(err) => Result(Fail(err), frame.st)
  }

  // The receiver, when there is one, followed by the arguments, left to right.
  function EvalFrame(c: Context, call: Expr, env: Scopes, d: nat, s: State): (r: Result<seq<Value>>)
    requires d <= c.maxDepth && call.Call?
    ensures r.st.Total() <= s.Total()
    ensures r.out.Val? ==> |r.out.v| <= K_MAX_ARGS
    decreases s.Total(), c.maxDepth - d, 0, call, 0
  {
    if FrameSize(call) > K_MAX_ARGS then Result(Fail(Undefined), s) else
    match call.receiver
    case None => EvalList(c, call.args, env, d, s)
    case Some(e) =>
      var self := Eval(c, e, env, d, s);
      match self.out
      case Early(v) => Result(Early(v), self.st)
      case Fail(err) => Result(Fail(err), self.st)
      case Val(v) =>
        var rest := EvalList(c, call.args, env, d, self.st);
        if rest.out.Val? then Result(Val([v] + rest.out.v), rest.st) else rest
  }

  function FrameSize(call: Expr): nat
    requires call.Call?
  {
    |call.args| + if call.receiver.Some? then 1 else 0
  }

  function EvalList(c: Context, es: seq<Expr>, env: Scopes, d: nat, s: State): (r: Result<seq<Value>>)
    requires d <= c.maxDepth
    ensures r.st.Total() <= s.Total()
    ensures r.out.Val? ==> |r.out.v| == |es|
    decreases s.Total(), c.maxDepth - d, 0, es
  {
    if es == [] then Result(Val([]), s) else
    var head := Eval(c, es[0], env, d, s);
    match head.out
    case Early(v) => Result(Early(v), head.st)
    case Fail(err) => Result(Fail(err), head.st)
    case Val(v) =>
      var rest := EvalList(c, es[1..], env, d, head.st);
      if rest.out.Val? then Result(Val([v] + rest.out.v), rest.st) else rest
  }

  // One activation of `f` at depth `b`.
  function Invoke(c: Context, f: string, vals: seq<Value>, b: nat, s: State): (r: Result<Value>)
    requires b <= c.maxDepth
    ensures r.st.Total() <= s.Total()
    ensures !r.out.Early?
    decreases s.Total(), c.maxDepth - b, 2
  {
    if f !in c.program then Result(Fail(Undefined), s) else
    var fun := c.program[f];
    var off := if fun.receiver then 1 else 0;
    if |vals| < off || |vals| > off + |fun.params| then Result(Fail(Undefined), s) else
    var scope := BindParams(c, fun.params, 0, off, vals, if fun.receiver then map["self" := vals[0]] else map[], b, s);
    match scope.out
    case Val(m) =>
      var r := Exec(c, fun.body, [m, map[]], b, scope.st);
      Result(Returned(r.ctl), r.st)
    case Early(_) => Result(Fail(Undefined), scope.st)
    case Fail(err) => Result(Fail(err), scope.st)
  }

  function Returned(ctl: Control): Out<Value> {
    match ctl
    case Ret(v) => Val(v)
    case Next => Val(Nil)
    case Abort(err) => Fail(err)
    case _ => Fail(Undefined)
  }

  // Parameters left to right: the argument when the call passed one, otherwise the default,
  // evaluated where the earlier parameters are visible.
  function BindParams(c: Context, params: seq<Param>, i: nat, off: nat, vals: seq<Value>, scope: map<string, Value>, b: nat, s: State)
    : (r: Result<map<string, Value>>)
    requires b <= c.maxDepth && i <= |params|
    ensures r.st.Total() <= s.Total()
    decreases s.Total(), c.maxDepth - b, 1, |params| - i
  {
    if i == |params| then Result(Val(scope), s)
    else if off + i < |vals| then
      BindParams(c, params, i + 1, off, vals, scope[params[i].name := vals[off + i]], b, s)
    else match params[i].default
      case None => Result(Fail(Undefined), s)
      case Some(e) =>
        var a := Eval(c, e, [scope], b, s);
        match a.out
        case Val(v) => BindParams(c, params, i + 1, off, vals, scope[params[i].name := v], b, a.st)
        case Early(_) => Result(Fail(Undefined), a.st)
        case Fail(err) => Result(Fail(err), a.st)
  }

  function Exec(c: Context, body: seq<Stmt>, env: Scopes, d: nat, s: State): (r: StmtResult)
    requires d <= c.maxDepth && env != []
    ensures r.st.Total() <= s.Total() && |r.env| == |env|
    decreases s.Total(), c.maxDepth - d, 0, body, 0
  {
    if body == [] then StmtResult(Next, env, s) else
    var head := ExecStmt(c, body[0], env, d, s);
    if head.ctl != Next then head else
    Exec(c, body[1..], head.env, d, head.st)
  }

  // A nested block: its bindings disappear when it ends.
  function ExecBlock(c: Context, body: seq<Stmt>, env: Scopes, d: nat, s: State): (r: StmtResult)
    requires d <= c.maxDepth && env != []
    ensures r.st.Total() <= s.Total() && |r.env| == |env|
    decreases s.Total(), c.maxDepth - d, 0, body, 1
  {
    var r := Exec(c, body, env + [map[]], d, s);
    StmtResult(r.ctl, r.env[..|env|], r.st)
  }

  function Stopped<T>(out: Out<T>): Control
    requires !out.Val?
  {
    match out case Early(v) => Ret(v) case Fail(err) => Abort(err)
  }

  function ExecStmt(c: Context, stmt: Stmt, env: Scopes, d: nat, s0: State): (r: StmtResult)
    requires d <= c.maxDepth && env != []
    ensures r.st.Total() <= s0.Total() && |r.env| == |env|
    decreases s0.Total(), c.maxDepth - d, 0, stmt
  {
    if s0.steps == 0 then StmtResult(Abort(StepLimit), env, s0) else
    RunStmt(c, stmt, env, d, s0.(steps := s0.steps - 1))
  }

  function RunStmt(c: Context, stmt: Stmt, env: Scopes, d: nat, s: State): (r: StmtResult)
    requires d <= c.maxDepth && env != []
    ensures r.st.Total() <= s.Total() && |r.env| == |env|
    decreases s.Total(), c.maxDepth - d, 4, stmt
  {
    match stmt
    case Let(x, e) =>
      var a := Eval(c, e, env, d, s);
      if !a.out.Val? then StmtResult(Stopped(a.out), env, a.st) else
      StmtResult(Next, Bind(env, x, a.out.v), a.st)
    case Assign(x, e) =>
      var a := Eval(c, e, env, d, s);
      if !a.out.Val? then StmtResult(Stopped(a.out), env, a.st) else
      (match Store(env, a.st.globals, x, a.out.v)
       case None => StmtResult(Abort(Undefined), env, a.st)
       case Some(p) => StmtResult(Next, p.0, a.st.(globals := p.1)))
    case ExprStmt(e) =>
      var a := Eval(c, e, env, d, s);
      if !a.out.Val? then StmtResult(Stopped(a.out), env, a.st) else StmtResult(Next, env, a.st)
    case If(cond, thenBody, elseBody) =>
      var a := Eval(c, cond, env, d, s);
      if !a.out.Val? then StmtResult(Stopped(a.out), env, a.st)
      else if !a.out.v.Bool? then StmtResult(Abort(Trap), env, a.st)
      else if a.out.v.b then ExecBlock(c, thenBody, env, d, a.st)
      else ExecBlock(c, elseBody, env, d, a.st)
    case While(cond, body) => ExecLoop(c, cond, body, env, d, s)
    case Break => StmtResult(Brk, env, s)
    case Continue => StmtResult(Cont, env, s)
    case Return(None) => StmtResult(Ret(Nil), env, s)
    case Return(Some(e)) =>
      if e.Call? && e.tail && c.tailCalls then ExecTail(c, e, env, d, s)
      else
        var a := Eval(c, e, env, d, s);
        if !a.out.Val? then StmtResult(Stopped(a.out), env, a.st)
        else if e.Propagate? then StmtResult(Ret(Present(a.out.v)), env, a.st)
        else StmtResult(Ret(a.out.v), env, a.st)
  }

  function ExecTail(c: Context, call: Expr, env: Scopes, d: nat, s: State): (r: StmtResult)
    requires d <= c.maxDepth && env != [] && call.Call?
    ensures r.st.Total() <= s.Total() && |r.env| == |env|
    decreases s.Total(), c.maxDepth - d, 3
  {
    var frame := EvalFrame(c, call, env, d, s);
    if !frame.out.Val? then StmtResult(Stopped(frame.out), env, frame.st) else
    var a := Invoke(c, call.target, frame.out.v, d, frame.st);
    StmtResult(if a.out.Val? then Ret(a.out.v) else Stopped(a.out), env, a.st)
  }

  function ExecLoop(c: Context, cond: Expr, body: seq<Stmt>, env: Scopes, d: nat, s: State): (r: StmtResult)
    requires d <= c.maxDepth && env != []
    ensures r.st.Total() <= s.Total() && |r.env| == |env|
    decreases s.Total(), c.maxDepth - d, 1
  {
    var a := Eval(c, cond, env, d, s);
    if !a.out.Val? then StmtResult(Stopped(a.out), env, a.st)
    else if !a.out.v.Bool? then StmtResult(Abort(Trap), env, a.st)
    else if !a.out.v.b then StmtResult(Next, env, a.st)
    else if a.st.fuel == 0 then StmtResult(Abort(OutOfFuel), env, a.st)
    else
      var r := ExecBlock(c, body, env, d, a.st.(fuel := a.st.fuel - 1));
      if r.ctl == Brk then r.(ctl := Next)
      else if r.ctl != Next && r.ctl != Cont then r
      else ExecLoop(c, cond, body, r.env, d, r.st)
  }
}
