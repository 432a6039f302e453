// What the evaluator's runs are, said without the evaluator: where a name is found and stored, in which
// order operands, statements, rounds and parameters go, and what some functions compute for every input.
module Semantics {

  import opened Wrappers
  import opened MiniKryndel

  // ---- names ------------------------------------------------------------------------------------------

  // Scope `i` is the innermost that binds `x`.
  predicate Innermost(env: Scopes, i: nat, x: string) {
    i < |env| && x in env[i] && forall j :: i < j < |env| ==> x !in env[j]
  }

  predicate Unbound(env: Scopes, x: string) { forall i :: 0 <= i < |env| ==> x !in env[i] }

  lemma {:induction false} LookupExactly(env: Scopes, globals: map<string, Value>, x: string, v: Value)
    ensures Lookup(env, globals, x) == Val(v) <==>
      (exists i: nat :: Innermost(env, i, x) && env[i][x] == v) || (Unbound(env, x) && x in globals && globals[x] == v)
    ensures Lookup(env, globals, x) == Fail(Undefined) <==> Unbound(env, x) && x !in globals
    ensures !Lookup(env, globals, x).Early?
  {
    if env != [] {
      var last, outer := |env| - 1, env[..|env| - 1];
      if x in env[last] {
        assert Innermost(env, last, x) && forall i: nat :: Innermost(env, i, x) ==> i == last;
      } else {
        LookupExactly(outer, globals, x, v);
        Outside(env, x);
        hide Innermost, Unbound;
      }
    }
  }

  // A name the innermost scope does not bind is bound where it is in the scopes around it.
  lemma Outside(env: Scopes, x: string)
    requires env != [] && x !in env[|env| - 1]
    ensures forall i: nat :: Innermost(env, i, x) <==> Innermost(env[..|env| - 1], i, x)
    ensures forall i: nat :: Innermost(env, i, x) ==> i < |env| - 1 && env[i] == env[..|env| - 1][i]
    ensures Unbound(env, x) <==> Unbound(env[..|env| - 1], x)
  {}

  // An assignment changes what one name means, in the one place the name was found.
  lemma {:induction false} StoreExactly(env: Scopes, globals: map<string, Value>, x: string, v: Value)
    ensures Store(env, globals, x, v).None? <==> Unbound(env, x) && x !in globals
    ensures var r := Store(env, globals, x, v); r.Some? ==>
      && |r.value.0| == |env|
      && (forall i: nat :: i < |env| ==> r.value.0[i] == if Innermost(env, i, x) then env[i][x := v] else env[i])
      && r.value.1 == if Unbound(env, x) then globals[x := v] else globals
  {
    if env != [] {
      var last, outer := |env| - 1, env[..|env| - 1];
      if x in env[last] {
        assert Innermost(env, last, x) && !Unbound(env, x);
        assert forall i: nat :: i < last ==> !Innermost(env, i, x);
      } else {
        StoreExactly(outer, globals, x, v);
        Outside(env, x);
        hide Unbound;
      }
    }
  }

  lemma LookupAfterStore(env: Scopes, globals: map<string, Value>, x: string, v: Value, y: string)
    requires Store(env, globals, x, v).Some?
    ensures var (after, outer) := Store(env, globals, x, v).value;
      Lookup(after, outer, y) == if y == x then Val(v) else Lookup(env, globals, y)
  {
    hide Lookup, Store;
    var (after, outer) := Store(env, globals, x, v).value;
    StoreExactly(env, globals, x, v);
    forall i: nat ensures Innermost(after, i, y) <==> Innermost(env, i, y) {}
    assert Unbound(after, y) <==> Unbound(env, y);
    LookupExactly(env, globals, y, v);
    LookupExactly(after, outer, y, v);
    if y == x {
      if !Unbound(env, x) {
        var i := Found(env, x);
        assert after[i][x] == v;
      }
    } else if Lookup(env, globals, y).Val? {
      var u := Lookup(env, globals, y).v;
      LookupExactly(env, globals, y, u);
      LookupExactly(after, outer, y, u);
      if !Unbound(env, y) {
        var i: nat :| Innermost(env, i, y) && env[i][y] == u;
        assert Innermost(after, i, y) && after[i][y] == u;
      }
    } else {
      match Lookup(env, globals, y) {
        case Fail(err) => LookupFails(env, globals, y);
        case _ =>
      }
    }
  }

  lemma {:induction false} Found(env: Scopes, x: string) returns (i: nat)
    requires !Unbound(env, x)
    ensures Innermost(env, i, x)
  {
    i := |env| - 1;
    while x !in env[i]
      invariant i < |env| && (forall j :: i < j < |env| ==> x !in env[j])
      decreases i
    {
      i := i - 1;
    }
  }

  lemma {:induction false} LookupFails(env: Scopes, globals: map<string, Value>, x: string)
    ensures Lookup(env, globals, x).Val? || Lookup(env, globals, x) == Fail(Undefined)
  {
    if env != [] { LookupFails(env[..|env| - 1], globals, x); }
  }

  // A declaration is seen by its name until its scope ends, and by no other.
  lemma LookupAfterBind(env: Scopes, globals: map<string, Value>, x: string, v: Value, y: string)
    requires env != []
    ensures Lookup(Bind(env, x, v), globals, y) == if y == x then Val(v) else Lookup(env, globals, y)
    ensures Bind(env, x, v)[..|env| - 1] == env[..|env| - 1]
  {}

  // ---- arithmetic -------------------------------------------------------------------------------------

  lemma ApplyExactly(a: int, b: int, n: int)
    ensures Apply(Add, Int(a), Int(b)) == Val(Int(n)) <==> n == a + b && -9223372036854775808 <= n <= 9223372036854775807
    ensures Apply(Sub, Int(a), Int(b)) == Val(Int(n)) <==> n + b == a && -9223372036854775808 <= n <= 9223372036854775807
    ensures Apply(Mul, Int(a), Int(b)) == Val(Int(n)) <==> n == a * b && -9223372036854775808 <= n <= 9223372036854775807
    ensures forall op :: op in {Add, Sub, Mul} ==> Apply(op, Int(a), Int(b)).Val? || Apply(op, Int(a), Int(b)) == Fail(Trap)
    ensures Apply(Less, Int(a), Int(b)) == Val(Bool(b > a))
  {}

  lemma EqualExactly(l: Value, r: Value)
    ensures Apply(Equal, l, r) == Val(Bool(true)) <==> l == r
    ensures Apply(Equal, l, r) == Val(Bool(false)) <==> l != r
  {}

  // ---- order ------------------------------------------------------------------------------------------

  // The first operands have values `vs`, each evaluated in the state its predecessor left.
  ghost predicate Evaluated(c: Context, es: seq<Expr>, env: Scopes, d: nat, sts: seq<State>, vs: seq<Value>)
    requires d <= c.maxDepth
  {
    && |sts| == |vs| + 1 && |vs| <= |es|
    && forall i :: 0 <= i < |vs| ==> Eval(c, es[i], env, d, sts[i]) == Result(Val(vs[i]), sts[i + 1])
  }

  // Operands are evaluated left to right, up to the first that has no value; a list of operands with
  // values has exactly these.
  lemma {:induction false} OperandsInOrder(c: Context, es: seq<Expr>, env: Scopes, d: nat, s: State) returns (sts: seq<State>, vs: seq<Value>)
    requires d <= c.maxDepth
    ensures Evaluated(c, es, env, d, sts, vs) && sts[0] == s
    ensures var r := EvalList(c, es, env, d, s);
      if |vs| == |es| then r == Result(Val(vs), sts[|es|])
      else var a := Eval(c, es[|vs|], env, d, sts[|vs|]);
        r.st == a.st && !a.out.Val? && r.out == (if a.out.Early? then Early(a.out.early) else Fail(a.out.error))
    decreases es
  {
    hide Eval;
    sts, vs := [s], [];
    if es != [] {
      var head := Eval(c, es[0], env, d, s);
      if head.out.Val? {
        var sts', vs' := OperandsInOrder(c, es[1..], env, d, head.st);
        sts, vs := [s] + sts', [head.out.v] + vs';
        forall i | 0 <= i < |vs| ensures Eval(c, es[i], env, d, sts[i]) == Result(Val(vs[i]), sts[i + 1]) {
          if i > 0 { assert es[1..][i - 1] == es[i]; }
        }
      }
    }
  }

  // Both operands of an operator, the left one first.
  lemma BinaryInOrder(c: Context, op: Op, l: Expr, r: Expr, env: Scopes, d: nat, s: State)
    requires d <= c.maxDepth
    ensures var both, b := EvalList(c, [l, r], env, d, s), Eval(c, Binary(op, l, r), env, d, s);
      && b.st == both.st
      && (both.out.Val? ==> |both.out.v| == 2 && b.out == Apply(op, both.out.v[0], both.out.v[1]))
      && (both.out.Early? ==> b.out == Early(both.out.early))
      && (both.out.Fail? ==> b.out == Fail(both.out.error))
  {
    hide Apply;
    var a := Eval(c, l, env, d, s);
    assert [l, r][1..] == [r] && [r][1..] == [];
    if a.out.Val? {
      var b := Eval(c, r, env, d, a.st);
      assert EvalList(c, [r], env, d, a.st).st == b.st;
      if b.out.Val? {
        assert EvalList(c, [], env, d, b.st) == Result(Val([]), b.st);
        assert [b.out.v] + [] == [b.out.v];
        assert EvalList(c, [r], env, d, a.st) == Result(Val([b.out.v]), b.st);
        assert [a.out.v] + [b.out.v] == [a.out.v, b.out.v];
      }
    }
  }

  // The first statements each end with the next one to run.
  ghost predicate Executed(c: Context, body: seq<Stmt>, d: nat, envs: seq<Scopes>, sts: seq<State>, k: nat)
    requires d <= c.maxDepth
  {
    && |envs| == |sts| == k + 1 && k <= |body| && (forall i :: 0 <= i <= k ==> envs[i] != [])
    && forall i :: 0 <= i < k ==> ExecStmt(c, body[i], envs[i], d, sts[i]) == StmtResult(Next, envs[i + 1], sts[i + 1])
  }

  lemma {:induction false} StatementsInOrder(c: Context, body: seq<Stmt>, env: Scopes, d: nat, s: State)
    returns (envs: seq<Scopes>, sts: seq<State>, k: nat)
    requires d <= c.maxDepth && env != []
    ensures Executed(c, body, d, envs, sts, k) && envs[0] == env && sts[0] == s
    ensures var r := Exec(c, body, env, d, s);
      if k == |body| then r == StmtResult(Next, envs[k], sts[k])
      else r.ctl != Next && r == ExecStmt(c, body[k], envs[k], d, sts[k])
    decreases body
  {
    hide ExecStmt;
    envs, sts, k := [env], [s], 0;
    if body != [] {
      var head := ExecStmt(c, body[0], env, d, s);
      if head.ctl == Next {
        var envs', sts', k' := StatementsInOrder(c, body[1..], head.env, d, head.st);
        envs, sts, k := [env] + envs', [s] + sts', k' + 1;
        forall i | 0 <= i < k ensures ExecStmt(c, body[i], envs[i], d, sts[i]) == StmtResult(Next, envs[i + 1], sts[i + 1]) {
          if i > 0 { assert body[1..][i - 1] == body[i]; }
        }
      }
    }
  }

  // One round of a loop: the condition holds, fuel is left, and the block ends or continues.
  ghost predicate Round(c: Context, cond: Expr, body: seq<Stmt>, d: nat, env: Scopes, s: State, env': Scopes, s': State)
    requires d <= c.maxDepth && env != []
  {
    var a := Eval(c, cond, env, d, s);
    && a.out == Val(Bool(true)) && a.st.fuel > 0
    && var r := ExecBlock(c, body, env, d, a.st.(fuel := a.st.fuel - 1));
       r.ctl in {Next, Cont} && r.env == env' && r.st == s'
  }

  ghost predicate Rounds(c: Context, cond: Expr, body: seq<Stmt>, d: nat, envs: seq<Scopes>, sts: seq<State>, k: nat)
    requires d <= c.maxDepth
  {
    && |envs| == |sts| == k + 1 && (forall i :: 0 <= i <= k ==> envs[i] != [])
    && forall i :: 0 <= i < k ==> Round(c, cond, body, d, envs[i], sts[i], envs[i + 1], sts[i + 1])
  }

  // How a loop ends when no round follows.
  ghost predicate Ended(c: Context, cond: Expr, body: seq<Stmt>, d: nat, env: Scopes, s: State, r: StmtResult)
    requires d <= c.maxDepth && env != []
  {
    var a := Eval(c, cond, env, d, s);
    match a.out
    case Early(v) => r == StmtResult(Ret(v), env, a.st)
    case Fail(err) => r == StmtResult(Abort(err), env, a.st)
    case Val(v) =>
      if !v.Bool? then r == StmtResult(Abort(Trap), env, a.st)
      else if !v.b then r == StmtResult(Next, env, a.st)
      else if a.st.fuel == 0 then r == StmtResult(Abort(OutOfFuel), env, a.st)
      else
        var b := ExecBlock(c, body, env, d, a.st.(fuel := a.st.fuel - 1));
        b.ctl !in {Next, Cont} && r == StmtResult(if b.ctl == Brk then Next else b.ctl, b.env, b.st)
  }

  // A loop makes its rounds until the condition fails, a block breaks, or it stops for another reason.
  lemma {:induction false} LoopInOrder(c: Context, cond: Expr, body: seq<Stmt>, env: Scopes, d: nat, s: State)
    returns (envs: seq<Scopes>, sts: seq<State>, k: nat)
    requires d <= c.maxDepth && env != []
    ensures Rounds(c, cond, body, d, envs, sts, k) && envs[0] == env && sts[0] == s
    ensures Ended(c, cond, body, d, envs[k], sts[k], ExecLoop(c, cond, body, env, d, s))
    decreases s.Total()
  {
    hide Eval, ExecBlock;
    envs, sts, k := [env], [s], 0;
    var a := Eval(c, cond, env, d, s);
    Shrinks(c, cond, env, d, s);
    if a.out == Val(Bool(true)) && a.st.fuel > 0 {
      var t := a.st.(fuel := a.st.fuel - 1);
      var b := ExecBlock(c, body, env, d, t);
      BlockShrinks(c, body, env, d, t);
      if b.ctl in {Next, Cont} {
        var envs', sts', k' := LoopInOrder(c, cond, body, b.env, d, b.st);
        assert Round(c, cond, body, d, env, s, b.env, b.st);
        RoundContinues(c, cond, body, d, env, s, b.env, b.st);
        hide Round, Rounds, ExecLoop, Ended;
        MoreRounds(c, cond, body, d, env, s, envs', sts', k');
        envs, sts, k := [env] + envs', [s] + sts', k' + 1;
      }
    }
  }

  lemma RoundContinues(c: Context, cond: Expr, body: seq<Stmt>, d: nat, env: Scopes, s: State, env': Scopes, s': State)
    requires d <= c.maxDepth && env != [] && env' != [] && Round(c, cond, body, d, env, s, env', s')
    ensures ExecLoop(c, cond, body, env, d, s) == ExecLoop(c, cond, body, env', d, s')
  {
    hide Eval, ExecBlock;
  }

  lemma MoreRounds(c: Context, cond: Expr, body: seq<Stmt>, d: nat, env: Scopes, s: State, envs: seq<Scopes>, sts: seq<State>, k: nat)
    requires d <= c.maxDepth && env != [] && Rounds(c, cond, body, d, envs, sts, k) && Round(c, cond, body, d, env, s, envs[0], sts[0])
    ensures Rounds(c, cond, body, d, [env] + envs, [s] + sts, k + 1)
  {
    hide Round;
  }

  lemma Shrinks(c: Context, e: Expr, env: Scopes, d: nat, s: State)
    requires d <= c.maxDepth
    ensures Eval(c, e, env, d, s).st.Total() <= s.Total()
  {}

  lemma BlockShrinks(c: Context, body: seq<Stmt>, env: Scopes, d: nat, s: State)
    requires d <= c.maxDepth && env != []
    ensures var r := ExecBlock(c, body, env, d, s); r.st.Total() <= s.Total() && |r.env| == |env|
  {}

  // A parameter gets the argument passed at its position, or else its default, evaluated where exactly the
  // earlier parameters have their values.
  ghost predicate Bound(c: Context, p: Param, at: nat, vals: seq<Value>, b: nat, scope: map<string, Value>, s: State, scope': map<string, Value>, s': State)
    requires b <= c.maxDepth
  {
    exists v ::
      && scope' == scope[p.name := v]
      && if at < |vals| then v == vals[at] && s' == s
         else p.default.Some? && Eval(c, p.default.value, [scope], b, s) == Result(Val(v), s')
  }

  lemma {:induction false} ParametersInOrder(c: Context, params: seq<Param>, i: nat, off: nat, vals: seq<Value>, scope: map<string, Value>, b: nat, s: State)
    returns (scopes: seq<map<string, Value>>, sts: seq<State>)
    requires b <= c.maxDepth && i <= |params| && BindParams(c, params, i, off, vals, scope, b, s).out.Val?
    ensures |scopes| == |sts| == |params| + 1 && scopes[i] == scope && sts[i] == s
    ensures BindParams(c, params, i, off, vals, scope, b, s) == Result(Val(scopes[|params|]), sts[|params|])
    ensures forall k: nat :: i <= k < |params| ==> Bound(c, params[k], off + k, vals, b, scopes[k], sts[k], scopes[k + 1], sts[k + 1])
    decreases |params| - i
  {
    hide Eval;
    if i == |params| {
      scopes, sts := seq(i + 1, _ => scope), seq(i + 1, _ => s);
    } else {
      var p, passed := params[i], off + i < |vals|;
      var a := if passed then Result(Val(vals[off + i]), s) else Eval(c, p.default.value, [scope], b, s);
      var next := scope[p.name := a.out.v];
      assert BindParams(c, params, i, off, vals, scope, b, s) == BindParams(c, params, i + 1, off, vals, next, b, a.st);
      assert Bound(c, p, off + i, vals, b, scope, s, next, a.st);
      hide BindParams, Bound;
      var scopes', sts' := ParametersInOrder(c, params, i + 1, off, vals, next, b, a.st);
      scopes, sts := scopes'[i := scope], sts'[i := s];
    }
  }

  // ---- scopes -----------------------------------------------------------------------------------------

  predicate SameNames(before: Scopes, after: Scopes) {
    |before| == |after| && forall i :: 0 <= i < |before| ==> after[i].Keys == before[i].Keys
  }

  // Statements declare in the innermost scope only.
  predicate NamesKept(before: Scopes, after: Scopes)
    requires before != []
  {
    && |after| == |before| && before[|before| - 1].Keys <= after[|after| - 1].Keys
    && SameNames(before[..|before| - 1], after[..|after| - 1])
  }

  // What a block declares is gone when it ends, and what was declared before it is still there: however it
  // ends, the names in scope are those it began with.
  lemma {:induction false} BlockKeepsNames(c: Context, body: seq<Stmt>, env: Scopes, d: nat, s: State)
    requires d <= c.maxDepth && env != []
    ensures SameNames(env, ExecBlock(c, body, env, d, s).env)
    decreases s.Total(), c.maxDepth - d, 0, body, 1
  {
    hide Exec;
    var inner := env + [map[]];
    var r := Exec(c, body, inner, d, s);
    StatementsKeepNames(c, body, inner, d, s);
    assert inner[..|env|] == env;
  }

  lemma {:induction false} StatementsKeepNames(c: Context, body: seq<Stmt>, env: Scopes, d: nat, s: State)
    requires d <= c.maxDepth && env != []
    ensures NamesKept(env, Exec(c, body, env, d, s).env)
    decreases s.Total(), c.maxDepth - d, 0, body, 0
  {
    hide ExecStmt;
    if body != [] {
      var head := ExecStmt(c, body[0], env, d, s);
      StatementKeepsNames(c, body[0], env, d, s);
      if head.ctl == Next {
        StatementsKeepNames(c, body[1..], head.env, d, head.st);
      }
    }
  }

  lemma {:induction false} StatementKeepsNames(c: Context, stmt: Stmt, env: Scopes, d: nat, s: State)
    requires d <= c.maxDepth && env != []
    ensures NamesKept(env, ExecStmt(c, stmt, env, d, s).env)
    decreases s.Total(), c.maxDepth - d, 0, stmt
  {
    hide Eval, ExecBlock, ExecLoop, Lookup, Store, Apply, SameNames;
    SameStays(env);
    if s.steps > 0 {
      var t := s.(steps := s.steps - 1);
      var r := RunStmt(c, stmt, env, d, t);
      match stmt
      case Let(x, e) =>
        var a := Eval(c, e, env, d, t);
        if a.out.Val? { LookupAfterBind(env, a.st.globals, x, a.out.v, x); }
      case Assign(x, e) =>
        var a := Eval(c, e, env, d, t);
        if a.out.Val? {
          StoredNames(env, a.st.globals, x, a.out.v);
          SameIsKept(env, r.env);
        }
      case If(cond, a, b) =>
        var v := Eval(c, cond, env, d, t);
        if v.out.Val? && v.out.v.Bool? {
          BlockKeepsNames(c, if v.out.v.b then a else b, env, d, v.st);
          SameIsKept(env, r.env);
        }
      case While(cond, body) =>
        LoopKeepsNames(c, cond, body, env, d, t);
        SameIsKept(env, r.env);
      case Return(Some(e)) => ReturnKeepsScopes(c, e, env, d, t);
      case _ =>
    }
  }

  lemma ReturnKeepsScopes(c: Context, e: Expr, env: Scopes, d: nat, s: State)
    requires d <= c.maxDepth && env != []
    ensures RunStmt(c, Return(Some(e)), env, d, s).env == env
  {
    hide Eval, EvalFrame, Invoke;
  }

  lemma {:induction false} LoopKeepsNames(c: Context, cond: Expr, body: seq<Stmt>, env: Scopes, d: nat, s: State)
    requires d <= c.maxDepth && env != []
    ensures SameNames(env, ExecLoop(c, cond, body, env, d, s).env)
    decreases s.Total(), c.maxDepth - d, 1
  {
    hide Eval, ExecBlock;
    var a := Eval(c, cond, env, d, s);
    if a.out == Val(Bool(true)) && a.st.fuel > 0 {
      var t := a.st.(fuel := a.st.fuel - 1);
      BlockKeepsNames(c, body, env, d, t);
      var r := ExecBlock(c, body, env, d, t);
      if r.ctl == Next || r.ctl == Cont { LoopKeepsNames(c, cond, body, r.env, d, r.st); }
    }
  }

  lemma SameStays(env: Scopes)
    ensures SameNames(env, env)
    ensures env != [] ==> SameNames(env[..|env| - 1], env[..|env| - 1])
  {}

  lemma StoredNames(env: Scopes, globals: map<string, Value>, x: string, v: Value)
    ensures var r := Store(env, globals, x, v); r.Some? ==> SameNames(env, r.value.0)
  {
    StoreExactly(env, globals, x, v);
  }

  lemma SameIsKept(before: Scopes, after: Scopes)
    requires before != [] && SameNames(before, after)
    ensures NamesKept(before, after)
  {}

  // ---- what some functions compute ----------------------------------------------------------------------

  // fn sum(n) { let s = 0; let i = 0; while i < n { s = s + i; i = i + 1 } return s }
  const MORE: Expr := Binary(Less, Var("i"), Var("n"))
  const ADD: Stmt := Assign("s", Binary(Add, Var("s"), Var("i")))
  const COUNT: Stmt := Assign("i", Binary(Add, Var("i"), Const(Int(1))))
  const SUM: Function :=
    Function(false, [Param("n", None)], [Let("s", Const(Int(0))), Let("i", Const(Int(0))), While(MORE, [ADD, COUNT]), Return(Some(Var("s")))])

  function SumEnv(n: int, s: int, i: int): (r: Scopes)
    ensures |r| == 2
  {
    [map["n" := Int(n)], map["s" := Int(s), "i" := Int(i)]]
  }

  lemma Names(n: int, s: int, i: int, globals: map<string, Value>)
    ensures Lookup(SumEnv(n, s, i), globals, "n") == Val(Int(n))
    ensures Lookup(SumEnv(n, s, i), globals, "s") == Val(Int(s))
    ensures Lookup(SumEnv(n, s, i), globals, "i") == Val(Int(i))
    ensures var inner := SumEnv(n, s, i) + [map[]];
      && Lookup(inner, globals, "s") == Val(Int(s)) && Lookup(inner, globals, "i") == Val(Int(i))
      && (forall t :: Store(inner, globals, "s", Int(t)) == Some((SumEnv(n, t, i) + [map[]], globals)))
      && (forall j :: Store(inner, globals, "i", Int(j)) == Some((SumEnv(n, s, j) + [map[]], globals)))
  {
    var env := SumEnv(n, s, i);
    var inner := env + [map[]];
    var first: Scopes := [map["n" := Int(n)]];
    assert env[..1] == first && inner[..2] == env;
    assert Lookup(first, globals, "n") == Val(Int(n));
    forall t ensures Store(inner, globals, "s", Int(t)) == Some((SumEnv(n, t, i) + [map[]], globals)) {
      assert env[1]["s" := Int(t)] == SumEnv(n, t, i)[1] && env[..1] + [SumEnv(n, t, i)[1]] == SumEnv(n, t, i);
      assert Store(env, globals, "s", Int(t)) == Some((SumEnv(n, t, i), globals));
    }
    forall j ensures Store(inner, globals, "i", Int(j)) == Some((SumEnv(n, s, j) + [map[]], globals)) {
      assert env[1]["i" := Int(j)] == SumEnv(n, s, j)[1] && env[..1] + [SumEnv(n, s, j)[1]] == SumEnv(n, s, j);
      assert Store(env, globals, "i", Int(j)) == Some((SumEnv(n, s, j), globals));
    }
  }

  // `x = x + e`, for an `e` that has a value.
  lemma AddTo(c: Context, x: string, e: Expr, env: Scopes, after: Scopes, a: int, b: int, d: nat, st: State)
    requires d <= c.maxDepth && env != [] && st.steps >= 1 && InRange(a + b)
    requires Lookup(env, st.globals, x) == Val(Int(a)) && Eval(c, e, env, d, st.(steps := st.steps - 1)) == Result(Val(Int(b)), st.(steps := st.steps - 1))
    requires Store(env, st.globals, x, Int(a + b)) == Some((after, st.globals))
    ensures ExecStmt(c, Assign(x, Binary(Add, Var(x), e)), env, d, st) == StmtResult(Next, after, st.(steps := st.steps - 1))
  {
    hide Lookup, Store, Exec, ExecBlock, ExecLoop, ExecTail, EvalFrame, EvalList, Invoke;
    var t := st.(steps := st.steps - 1);
    assert Eval(c, Var(x), env, d, t) == Result(Val(Int(a)), t);
    assert Eval(c, Binary(Add, Var(x), e), env, d, t) == Result(Val(Int(a + b)), t);
  }

  // One round of the loop.
  lemma SumRound(c: Context, n: int, s: int, i: int, d: nat, st: State)
    requires d <= c.maxDepth && st.steps >= 2 && InRange(s + i) && InRange(i + 1)
    ensures ExecBlock(c, [ADD, COUNT], SumEnv(n, s, i), d, st) == StmtResult(Next, SumEnv(n, s + i, i + 1), st.(steps := st.steps - 2))
  {
    hide Lookup, Store, SumEnv, ExecStmt;
    var t, u := st.(steps := st.steps - 1), st.(steps := st.steps - 2);
    var inner, next, last := SumEnv(n, s, i) + [map[]], SumEnv(n, s + i, i) + [map[]], SumEnv(n, s + i, i + 1) + [map[]];
    Names(n, s, i, st.globals);
    Names(n, s + i, i, st.globals);
    assert Eval(c, Var("i"), inner, d, t) == Result(Val(Int(i)), t);
    AddTo(c, "s", Var("i"), inner, next, s, i, d, st);
    AddTo(c, "i", Const(Int(1)), next, last, i, 1, d, t);
    TwoStatements(c, ADD, COUNT, inner, d, st);
    assert last[..|SumEnv(n, s, i)|] == SumEnv(n, s + i, i + 1);
  }

  lemma TwoStatements(c: Context, x: Stmt, y: Stmt, env: Scopes, d: nat, s: State)
    requires d <= c.maxDepth && env != []
    ensures var head := ExecStmt(c, x, env, d, s);
      Exec(c, [x, y], env, d, s) == if head.ctl != Next then head else ExecStmt(c, y, head.env, d, head.st)
  {
    hide ExecStmt;
    assert [x, y][1..] == [y] && [y][1..] == [];
    var head := ExecStmt(c, x, env, d, s);
    if head.ctl == Next {
      var last := ExecStmt(c, y, head.env, d, head.st);
      assert last.ctl == Next ==> Exec(c, [], last.env, d, last.st) == last;
      assert Exec(c, [y], head.env, d, head.st) == last;
    }
  }

  // The sum of the numbers below `n`.
  function Below(n: nat): nat { if n == 0 then 0 else Below(n - 1) + n - 1 }

  lemma {:induction false} BelowIsTriangle(n: nat)
    ensures 2 * Below(n) == n * (n - 1)
  {
    if n > 0 { BelowIsTriangle(n - 1); }
  }

  lemma {:induction false} BelowGrows(i: nat, n: nat)
    requires i <= n
    ensures Below(i) <= Below(n)
    decreases n
  {
    if i < n { BelowGrows(i, n - 1); }
  }

  lemma {:induction false} SumLoop(c: Context, n: nat, i: nat, d: nat, st: State)
    requires d <= c.maxDepth && i <= n && InRange(Below(n)) && InRange(n) && st.steps >= 2 * (n - i) && st.fuel >= n - i
    ensures ExecLoop(c, MORE, [ADD, COUNT], SumEnv(n, Below(i), i), d, st)
         == StmtResult(Next, SumEnv(n, Below(n), n), st.(steps := st.steps - 2 * (n - i), fuel := st.fuel - (n - i)))
    decreases n - i
  {
    var env := SumEnv(n, Below(i), i);
    Condition(c, n, Below(i), i, d, st);
    hide Eval, ExecBlock, Lookup, SumEnv, Store;
    if i < n {
      BelowGrows(i + 1, n);
      SumContinues(c, n, Below(i), i, d, st);
      hide ExecLoop, InRange;
      SumLoop(c, n, i + 1, d, st.(steps := st.steps - 2, fuel := st.fuel - 1));
    }
  }

  lemma SumContinues(c: Context, n: int, s: int, i: int, d: nat, st: State)
    requires d <= c.maxDepth && i < n && InRange(s + i) && InRange(i + 1) && st.steps >= 2 && st.fuel >= 1
    ensures ExecLoop(c, MORE, [ADD, COUNT], SumEnv(n, s, i), d, st)
         == ExecLoop(c, MORE, [ADD, COUNT], SumEnv(n, s + i, i + 1), d, st.(steps := st.steps - 2, fuel := st.fuel - 1))
  {
    hide ExecLoop, Eval, ExecBlock, SumEnv, InRange;
    var next := st.(steps := st.steps - 2, fuel := st.fuel - 1);
    Condition(c, n, s, i, d, st);
    SumRound(c, n, s, i, d, st.(fuel := st.fuel - 1));
    assert Round(c, MORE, [ADD, COUNT], d, SumEnv(n, s, i), st, SumEnv(n, s + i, i + 1), next);
    RoundContinues(c, MORE, [ADD, COUNT], d, SumEnv(n, s, i), st, SumEnv(n, s + i, i + 1), next);
  }

  lemma Condition(c: Context, n: int, s: int, i: int, d: nat, st: State)
    requires d <= c.maxDepth
    ensures Eval(c, MORE, SumEnv(n, s, i), d, st) == Result(Val(Bool(i < n)), st)
  {
    hide Lookup, SumEnv;
    Names(n, s, i, st.globals);
    assert Eval(c, Var("i"), SumEnv(n, s, i), d, st) == Result(Val(Int(i)), st);
    assert Eval(c, Var("n"), SumEnv(n, s, i), d, st) == Result(Val(Int(n)), st);
  }

  lemma SumStarts(c: Context, n: int, d: nat, st: State)
    requires d <= c.maxDepth && st.steps >= 2
    ensures var start: Scopes := [map["n" := Int(n)], map[]];
      Exec(c, SUM.body, start, d, st) == Exec(c, SUM.body[2..], SumEnv(n, 0, 0), d, st.(steps := st.steps - 2))
  {
    var start: Scopes := [map["n" := Int(n)], map[]];
    var one: Scopes := [map["n" := Int(n)], map["s" := Int(0)]];
    var s1, s2 := st.(steps := st.steps - 1), st.(steps := st.steps - 2);
    var body := SUM.body;
    assert ExecStmt(c, body[0], start, d, st) == StmtResult(Next, one, s1) by {
      assert body[0] == Let("s", Const(Int(0))) && Eval(c, Const(Int(0)), start, d, s1) == Result(Val(Int(0)), s1);
      assert start[1]["s" := Int(0)] == one[1] && Bind(start, "s", Int(0)) == one;
    }
    assert ExecStmt(c, body[1], one, d, s1) == StmtResult(Next, SumEnv(n, 0, 0), s2) by {
      assert body[1] == Let("i", Const(Int(0))) && Eval(c, Const(Int(0)), one, d, s2) == Result(Val(Int(0)), s2);
      assert one[1]["i" := Int(0)] == SumEnv(n, 0, 0)[1] && Bind(one, "i", Int(0)) == SumEnv(n, 0, 0);
    }
    hide ExecStmt;
    assert body[1..][1..] == body[2..];
  }

  lemma SumEnds(c: Context, n: int, s: int, d: nat, st: State)
    requires d <= c.maxDepth && st.steps >= 1
    ensures ExecStmt(c, SUM.body[3], SumEnv(n, s, n), d, st).ctl == Ret(Int(s))
    ensures ExecStmt(c, SUM.body[3], SumEnv(n, s, n), d, st).st == st.(steps := st.steps - 1)
  {
    hide Lookup, SumEnv;
    Names(n, s, n, st.globals);
    var t := st.(steps := st.steps - 1);
    assert SUM.body[3] == Return(Some(Var("s")));
    assert Eval(c, Var("s"), SumEnv(n, s, n), d, t) == Result(Val(Int(s)), t);
  }

  // For every `n` whose sum fits an Int, the function gives the sum of the numbers below `n`.
  lemma SumIsTriangle(c: Context, n: nat, b: nat, st: State)
    requires b <= c.maxDepth && "sum" in c.program && c.program["sum"] == SUM
    requires InRange(Below(n)) && InRange(n) && st.steps >= 4 + 2 * n && st.fuel >= n
    ensures Invoke(c, "sum", [Int(n)], b, st) == Result(Val(Int(Below(n))), st.(steps := st.steps - 4 - 2 * n, fuel := st.fuel - n))
    ensures 2 * Below(n) == n * (n - 1)
  {
    BelowIsTriangle(n);
    SumStarts(c, n, b, st);
    var s2 := st.(steps := st.steps - 2);
    var s3 := s2.(steps := s2.steps - 1);
    var end := s3.(steps := s3.steps - 2 * n, fuel := s3.fuel - n);
    assert Below(0) == 0;
    SumLoop(c, n, 0, b, s3);
    SumEnds(c, n, Below(n), b, end);
    OneParameter(c, SUM, [Int(n)], b, st);
    hide ExecLoop, Below, SumEnv, Eval;
    assert SUM.body[2..] == [While(MORE, [ADD, COUNT]), SUM.body[3]];
    assert ExecStmt(c, While(MORE, [ADD, COUNT]), SumEnv(n, 0, 0), b, s2) == StmtResult(Next, SumEnv(n, Below(n), n), end);
    TwoStatements(c, While(MORE, [ADD, COUNT]), SUM.body[3], SumEnv(n, 0, 0), b, s2);
    hide ExecStmt, Exec, BindParams;
    Called(c, b, st, Int(n));
  }

  lemma Called(c: Context, b: nat, s: State, v: Value)
    requires b <= c.maxDepth && "sum" in c.program && c.program["sum"] == SUM
    requires BindParams(c, SUM.params, 0, 0, [v], map[], b, s) == Result(Val(map["n" := v]), s)
    ensures var r := Exec(c, SUM.body, [map["n" := v], map[]], b, s); Invoke(c, "sum", [v], b, s) == Result(Returned(r.ctl), r.st)
  {
    hide BindParams, Exec;
  }

  lemma OneParameter(c: Context, f: Function, vals: seq<Value>, b: nat, s: State)
    requires b <= c.maxDepth && !f.receiver && |f.params| == |vals| == 1
    ensures BindParams(c, f.params, 0, 0, vals, map[], b, s) == Result(Val(map[f.params[0].name := vals[0]]), s)
  {
    var none: map<string, Value> := map[];
    var scope := none[f.params[0].name := vals[0]];
    assert scope == map[f.params[0].name := vals[0]];
    assert BindParams(c, f.params, 1, 0, vals, scope, b, s) == Result(Val(scope), s);
  }

  // fn open(x) { let y = x?; return y } and fn same(x) { return x? }
  const OPEN: Function := Function(false, [Param("x", None)], [Let("y", Propagate(Var("x"))), Return(Some(Var("y")))])
  const SAME: Function := Function(false, [Param("x", None)], [Return(Some(Propagate(Var("x"))))])

  // `?` opens an Option or leaves the function with the absent one; returned itself, it passes the Option on.
  lemma PropagateExactly(c: Context, v: Value, b: nat, s: State)
    requires b <= c.maxDepth && {"open", "same"} <= c.program.Keys && c.program["open"] == OPEN && c.program["same"] == SAME
    requires s.steps >= 2 && (v.Present? || v.Absent?)
    ensures Invoke(c, "open", [v], b, s).out == Val(if v.Present? then v.inner else Absent)
    ensures Invoke(c, "same", [v], b, s).out == Val(v)
  {
    var env: Scopes := [map["x" := v], map[]];
    var first: Scopes := [map["x" := v]];
    assert env[..1] == first && Lookup(first, s.globals, "x") == Val(v) && Lookup(env, s.globals, "x") == Val(v);
    var t := s.(steps := s.steps - 1);
    var outcome := Eval(c, Propagate(Var("x")), env, b, t);
    assert outcome == Result(Opened(v), t) by { assert Eval(c, Var("x"), env, b, t) == Result(Val(v), t); }
    OneParameter(c, OPEN, [v], b, s);
    OneParameter(c, SAME, [v], b, s);
    assert ExecStmt(c, SAME.body[0], env, b, s).ctl == Ret(v);
    assert OPEN.body[0] == Let("y", Propagate(Var("x"))) && env[1..] == [map[]];
    var head := ExecStmt(c, OPEN.body[0], env, b, s);
    assert RunStmt(c, OPEN.body[0], env, b, t) == if outcome.out.Val? then StmtResult(Next, Bind(env, "y", outcome.out.v), t) else StmtResult(Stopped(outcome.out), env, t);
    assert head == if v.Present? then StmtResult(Next, Bind(env, "y", v.inner), t) else StmtResult(Ret(Absent), env, t);
    if v.Present? {
      var next := Bind(env, "y", v.inner);
      assert Lookup(next, s.globals, "y") == Val(v.inner);
      var u := s.(steps := s.steps - 2);
      assert Eval(c, Var("y"), next, b, u) == Result(Val(v.inner), u);
      assert ExecStmt(c, OPEN.body[1], next, b, t).ctl == Ret(v.inner);
      assert OPEN.body[1..] == [OPEN.body[1]];
      assert Exec(c, OPEN.body[1..], next, b, t).ctl == Ret(v.inner);
    }
  }

  // fn (self) first(a) { return self }, fn (self) second(a) { return a }, fn twice(a, b = a) { return b } and
  // fn nothing() {}
  const FIRST: Function := Function(true, [Param("a", None)], [Return(Some(Var("self")))])
  const SECOND: Function := Function(true, [Param("a", None)], [Return(Some(Var("a")))])
  const TWICE: Function := Function(false, [Param("a", None), Param("b", Some(Var("a")))], [Return(Some(Var("b")))])
  const NOTHING: Function := Function(false, [], [])

  predicate HasSamples(c: Context) {
    && {"first", "second", "twice", "nothing"} <= c.program.Keys
    && c.program["first"] == FIRST && c.program["second"] == SECOND && c.program["twice"] == TWICE && c.program["nothing"] == NOTHING
  }

  function Constants(vs: seq<Value>): (r: seq<Expr>)
    ensures |r| == |vs| && forall i :: 0 <= i < |vs| ==> r[i] == Const(vs[i])
  {
    seq(|vs|, i requires 0 <= i < |vs| => Const(vs[i]))
  }

  lemma {:induction false} ConstantsEvaluate(c: Context, vs: seq<Value>, env: Scopes, d: nat, s: State)
    requires d <= c.maxDepth
    ensures EvalList(c, Constants(vs), env, d, s) == Result(Val(vs), s)
    decreases vs
  {
    var es := Constants(vs);
    if vs != [] {
      assert es[1..] == Constants(vs[1..]);
      ConstantsEvaluate(c, vs[1..], env, d, s);
      assert [vs[0]] + vs[1..] == vs;
      assert Eval(c, es[0], env, d, s) == Result(Val(vs[0]), s);
    }
  }

  // A call runs one level deeper: its receiver is `self`, its arguments are the parameters in order, an
  // omitted default sees the parameters before it, a body that ends without `return` yields nil, and a body
  // without steps left fails.
  lemma CallsBind(c: Context, u: Value, v: Value, env: Scopes, d: nat, s: State)
    requires d < c.maxDepth && HasSamples(c)
    ensures s.steps > 0 ==> Eval(c, Call("first", Some(Const(u)), Constants([v]), false), env, d, s).out == Val(u)
    ensures s.steps > 0 ==> Eval(c, Call("second", Some(Const(u)), Constants([v]), false), env, d, s).out == Val(v)
    ensures s.steps > 0 ==> Eval(c, Call("twice", None, Constants([u]), false), env, d, s).out == Val(u)
    ensures s.steps > 0 ==> Eval(c, Call("twice", None, Constants([u, v]), false), env, d, s).out == Val(v)
    ensures Eval(c, Call("nothing", None, [], false), env, d, s) == Result(Val(Nil), s)
    ensures s.steps == 0 ==> Eval(c, Call("twice", None, Constants([u]), false), env, d, s).out == Fail(StepLimit)
  {
    CallOfConstants(c, "first", Some(u), [v], env, d, s);
    CallOfConstants(c, "second", Some(u), [v], env, d, s);
    CallOfConstants(c, "twice", None, [u], env, d, s);
    CallOfConstants(c, "twice", None, [u, v], env, d, s);
    CallOfConstants(c, "nothing", None, [], env, d, s);
    assert Constants([]) == [];
    MethodReturns(c, u, v, d + 1, s);
    TwiceReturns(c, u, v, d + 1, s);
    NothingReturns(c, d + 1, s);
    hide Eval, Invoke;
  }

  lemma CallOfConstants(c: Context, f: string, u: Option<Value>, vs: seq<Value>, env: Scopes, d: nat, s: State)
    requires d < c.maxDepth && |vs| <= 2
    ensures Eval(c, Call(f, if u.Some? then Some(Const(u.value)) else None, Constants(vs), false), env, d, s)
      == Invoke(c, f, (if u.Some? then [u.value] else []) + vs, d + 1, s)
  {
    hide Invoke, EvalList, Constants;
    ConstantsEvaluate(c, vs, env, d, s);
    var call := Call(f, if u.Some? then Some(Const(u.value)) else None, Constants(vs), false);
    if u.Some? { assert Eval(c, Const(u.value), env, d, s) == Result(Val(u.value), s); }
    assert [] + vs == vs;
    assert EvalFrame(c, call, env, d, s) == Result(Val((if u.Some? then [u.value] else []) + vs), s);
  }

  // A body that returns a name.
  lemma ReturnsName(c: Context, x: string, m: map<string, Value>, b: nat, s: State)
    requires b <= c.maxDepth && x in m
    ensures Exec(c, [Return(Some(Var(x)))], [m, map[]], b, s).ctl == if s.steps > 0 then Ret(m[x]) else Abort(StepLimit)
  {
    var env, first: Scopes := [m, map[]], [m];
    assert env[..1] == first && Lookup(first, s.globals, x) == Val(m[x]) && Lookup(env, s.globals, x) == Val(m[x]);
    if s.steps > 0 {
      var t := s.(steps := s.steps - 1);
      assert Eval(c, Var(x), env, b, t) == Result(Val(m[x]), t);
      assert ExecStmt(c, Return(Some(Var(x))), env, b, s).ctl == Ret(m[x]);
    } else {
      assert ExecStmt(c, Return(Some(Var(x))), env, b, s).ctl == Abort(StepLimit);
    }
    hide ExecStmt;
    assert Exec(c, [Return(Some(Var(x)))], env, b, s) == ExecStmt(c, Return(Some(Var(x))), env, b, s);
  }

  lemma MethodReturns(c: Context, u: Value, v: Value, b: nat, s: State)
    requires b <= c.maxDepth && HasSamples(c)
    ensures s.steps > 0 ==> Invoke(c, "first", [u] + [v], b, s).out == Val(u)
    ensures s.steps > 0 ==> Invoke(c, "second", [u] + [v], b, s).out == Val(v)
  {
    var vals, self: map<string, Value> := [u] + [v], map["self" := u];
    var m := self["a" := v];
    assert BindParams(c, FIRST.params, 1, 1, vals, m, b, s) == Result(Val(m), s);
    assert BindParams(c, FIRST.params, 0, 1, vals, self, b, s) == Result(Val(m), s);
    ReturnsName(c, "self", m, b, s);
    ReturnsName(c, "a", m, b, s);
    hide Exec, BindParams;
  }

  lemma TwiceReturns(c: Context, u: Value, v: Value, b: nat, s: State)
    requires b <= c.maxDepth && HasSamples(c)
    ensures Invoke(c, "twice", [] + [u], b, s).out == if s.steps > 0 then Val(u) else Fail(StepLimit)
    ensures s.steps > 0 ==> Invoke(c, "twice", [] + [u, v], b, s).out == Val(v)
  {
    var none: map<string, Value> := map[];
    var m := none["a" := u];
    var env: Scopes := [m];
    assert [] + [u] == [u] && [] + [u, v] == [u, v];
    assert Lookup(env, s.globals, "a") == Val(u);
    assert Eval(c, Var("a"), env, b, s) == Result(Val(u), s);
    var one, two := m["b" := u], m["b" := v];
    assert BindParams(c, TWICE.params, 2, 0, [u], one, b, s) == Result(Val(one), s);
    assert BindParams(c, TWICE.params, 1, 0, [u], m, b, s) == Result(Val(one), s);
    assert BindParams(c, TWICE.params, 0, 0, [u], none, b, s) == Result(Val(one), s);
    assert BindParams(c, TWICE.params, 2, 0, [u, v], two, b, s) == Result(Val(two), s);
    assert BindParams(c, TWICE.params, 1, 0, [u, v], m, b, s) == Result(Val(two), s);
    assert BindParams(c, TWICE.params, 0, 0, [u, v], none, b, s) == Result(Val(two), s);
    ReturnsName(c, "b", one, b, s);
    ReturnsName(c, "b", two, b, s);
    hide Exec, BindParams;
  }

  lemma NothingReturns(c: Context, b: nat, s: State)
    requires b <= c.maxDepth && HasSamples(c)
    ensures Invoke(c, "nothing", [] + [], b, s) == Result(Val(Nil), s)
  {
    var none: map<string, Value> := map[];
    assert BindParams(c, NOTHING.params, 0, 0, [], none, b, s) == Result(Val(none), s);
    var env: Scopes := [none, map[]];
    assert Exec(c, [], env, b, s) == StmtResult(Next, env, s);
  }

  // A conditional runs the branch its condition picks, as a block, in the state the condition left.
  lemma BranchTaken(c: Context, cond: Expr, x: seq<Stmt>, y: seq<Stmt>, env: Scopes, d: nat, s: State, v: bool, t: State)
    requires d <= c.maxDepth && env != [] && s.steps > 0
    requires Eval(c, cond, env, d, s.(steps := s.steps - 1)) == Result(Val(Bool(v)), t)
    ensures ExecStmt(c, If(cond, x, y), env, d, s) == ExecBlock(c, if v then x else y, env, d, t)
  {
    hide Eval, ExecBlock;
  }
}
