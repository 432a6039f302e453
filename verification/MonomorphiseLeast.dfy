// The plan the worklist reaches is the least closed one, and in a well-scoped program all its
// instances are free of type variables, so the backend's substitution means what it should.
module MonomorphiseLeast {
  import opened Wrappers
  import opened TypeSpecs
  import opened Monomorphise

  // ---- the least closed plan ---------------------------------------------------------------------

  // What every closed plan has.
  ghost function Least(p: Program): Plan
    requires p.Valid()
  {
    Plan(iset t | NeededStruct(p, t), iset k | NeededKey(p, k))
  }

  ghost predicate NeededStruct(p: Program, t: Spec)
    requires p.Valid()
  {
    forall q :: ClosedPlan(p, q) ==> t in q.structs
  }

  ghost predicate NeededKey(p: Program, k: Key)
    requires p.Valid()
  {
    forall q :: ClosedPlan(p, q) ==> k in q.keys
  }

  lemma LeastIsBelow(p: Program, q: Plan)
    requires p.Valid() && ClosedPlan(p, q)
    ensures Includes(Least(p), q)
  {}

  ghost predicate EverywhereExpr(p: Program, e: Expr, s: Substitution)
    requires p.Valid()
  {
    forall q :: ClosedPlan(p, q) ==> ExprPlanned(p, q, e, s)
  }

  ghost predicate EverywhereStmt(p: Program, t: Stmt, s: Substitution)
    requires p.Valid()
  {
    forall q :: ClosedPlan(p, q) ==> StmtPlanned(p, q, t, s)
  }

  ghost predicate EverywhereBody(p: Program, body: seq<Stmt>, s: Substitution)
    requires p.Valid()
  {
    forall q :: ClosedPlan(p, q) ==> BodyPlanned(p, q, body, s)
  }

  lemma SiteInLeast(p: Program, m: Plan, e: Expr, s: Substitution)
    requires p.Valid() && ClosedPlan(p, m) && EverywhereExpr(p, e, s)
    ensures SitePlanned(p, Least(p), e, s)
  {
    hide CallKey, LowersStruct, NeedsSpecialization, TraitReady, ClosedPlan, Substitute;
    assert SitePlanned(p, m, e, s);
    forall q | ClosedPlan(p, q) ensures SitePlanned(p, q, e, s) { assert ExprPlanned(p, q, e, s); }
  }

  lemma {:induction false} ExprInLeast(p: Program, m: Plan, e: Expr, s: Substitution)
    requires p.Valid() && ClosedPlan(p, m) && EverywhereExpr(p, e, s)
    ensures ExprPlanned(p, Least(p), e, s)
    decreases e
  {
    hide SitePlanned, ClosedPlan, Least;
    SiteInLeast(p, m, e, s);
    forall x | x in Children(e) ensures ExprPlanned(p, Least(p), x, s) {
      assert EverywhereExpr(p, x, s);
      ExprInLeast(p, m, x, s);
    }
  }

  lemma {:induction false} StmtInLeast(p: Program, m: Plan, t: Stmt, s: Substitution)
    requires p.Valid() && ClosedPlan(p, m) && EverywhereStmt(p, t, s)
    ensures StmtPlanned(p, Least(p), t, s)
    decreases t
  {
    hide ExprPlanned, ClosedPlan, Least;
    forall x | x in t.exprs ensures ExprPlanned(p, Least(p), x, s) {
      forall q | ClosedPlan(p, q) ensures ExprPlanned(p, q, x, s) { assert StmtPlanned(p, q, t, s); }
      ExprInLeast(p, m, x, s);
    }
    forall b | b in t.branches ensures BodyPlanned(p, Least(p), b.body, s) {
      forall q | ClosedPlan(p, q) ensures BodyPlanned(p, q, b.body, s) { assert StmtPlanned(p, q, t, s); }
      BodyInLeast(p, m, b.body, s);
    }
  }

  lemma {:induction false} BodyInLeast(p: Program, m: Plan, body: seq<Stmt>, s: Substitution)
    requires p.Valid() && ClosedPlan(p, m) && EverywhereBody(p, body, s)
    ensures BodyPlanned(p, Least(p), body, s)
    decreases body
  {
    hide StmtPlanned, ClosedPlan, Least;
    forall t | t in body ensures StmtPlanned(p, Least(p), t, s) {
      forall q | ClosedPlan(p, q) ensures StmtPlanned(p, q, t, s) { assert BodyPlanned(p, q, body, s); }
      StmtInLeast(p, m, t, s);
    }
  }

  lemma FunctionInLeast(p: Program, m: Plan, f: Function, s: Substitution)
    requires p.Valid() && ClosedPlan(p, m)
    requires forall q :: ClosedPlan(p, q) ==> FunctionPlanned(p, q, f, s)
    ensures FunctionPlanned(p, Least(p), f, s)
  {
    hide ExprPlanned, StmtPlanned, ClosedPlan, Least;
    forall x | x in f.defaults ensures ExprPlanned(p, Least(p), x, s) {
      forall q | ClosedPlan(p, q) ensures ExprPlanned(p, q, x, s) { assert FunctionPlanned(p, q, f, s); }
      ExprInLeast(p, m, x, s);
    }
    forall q | ClosedPlan(p, q) ensures BodyPlanned(p, q, f.body, s) { assert FunctionPlanned(p, q, f, s); }
    BodyInLeast(p, m, f.body, s);
  }

  // Closed plans are closed under intersection.
  lemma LeastIsClosed(p: Program, m: Plan)
    requires p.Valid() && ClosedPlan(p, m)
    ensures ClosedPlan(p, Least(p))
  {
    hide FunctionPlanned, BodyPlanned, KeySubstitution, NeedsSpecialization, LowersStruct;
    var l := Least(p);
    forall d | d in p.structs && d.typeParams == [] ensures StructPlanned(p, l, d) {
      assert StructPlanned(p, m, d);
      forall q | ClosedPlan(p, q) ensures Variable(d.name) in q.structs { assert StructPlanned(p, q, d); }
    }
    forall i | 0 <= i < |p.functions| && !NeedsSpecialization(p, p.functions[i]) ensures FunctionPlanned(p, l, p.functions[i], map[]) {
      FunctionInLeast(p, m, p.functions[i], map[]);
    }
    BodyInLeast(p, m, p.top, map[]);
    forall k | k in l.keys ensures KeyPlanned(p, l, k) {
      assert KeyPlanned(p, m, k);
      forall q | ClosedPlan(p, q) ensures FunctionPlanned(p, q, p.functions[k.function'], KeySubstitution(p, k)) { assert KeyPlanned(p, q, k); }
      FunctionInLeast(p, m, p.functions[k.function'], KeySubstitution(p, k));
    }
  }

  ghost predicate Plannable(p: Program)
    requires p.Valid()
  {
    exists q :: ClosedPlan(p, q) && Small(q)
  }

  // Planning a whole program: it succeeds exactly when a closed plan of bounded size exists, and
  // reaches the least one.
  method PlanProgram(p: Program) returns (ok: bool, g: Cgen)
    requires p.Valid()
    ensures fresh(g) && g.program == p && g.Valid()
    ensures ok <==> Plannable(p)
    ensures ok ==> ClosedPlan(p, g.ThePlan()) && g.ThePlan() == Least(p) && g.regularFunctions == Regular(p, |p.functions|)
  {
    hide ClosedPlan, Least, Small, Plannable, Includes;
    g := new Cgen(p);
    ok := g.PlanInstances(Least(p));
    PlanIsSmall(g);
    Judge(p, g.ThePlan(), ok);
  }

  lemma Judge(p: Program, plan: Plan, ok: bool)
    requires p.Valid() && (ok ==> ClosedPlan(p, plan)) && Small(plan)
    requires ClosedPlan(p, Least(p)) ==> Includes(plan, Least(p)) && (Small(Least(p)) ==> ok)
    ensures ok <==> Plannable(p)
    ensures ok ==> plan == Least(p)
  {
    hide ClosedPlan, Small;
    if ok {
      LeastIsClosed(p, plan);
      LeastIsBelow(p, plan);
    } else if Plannable(p) {
      var q :| ClosedPlan(p, q) && Small(q);
      LeastIsClosed(p, q);
      LeastIsBelow(p, q);
      StillSmall(Least(p), q);
    }
  }

  lemma StillSmall(a: Plan, b: Plan)
    requires Includes(a, b) && Small(b)
    ensures Small(a)
  {
    var f :| Covers(f, b);
    assert Covers(f, a);
  }

  lemma PlanIsSmall(g: Cgen)
    requires g.Valid()
    ensures Small(g.ThePlan())
  {
    hide KeySubstitution;
    assert Covers(g.functionInstanceByKey.Keys, g.ThePlan());
  }

  // ---- well-scoped programs ------------------------------------------------------------------------

  function NamesOf(names: seq<string>): set<string> { set n | n in names }

  // The type parameters a function's types may mention.
  function Scope(p: Program, f: Function): set<string> { NamesOf(ReceiverParams(p, f)) + NamesOf(f.typeParams) }

  // Among all type-parameter names `vars`, only those in scope are mentioned.
  ghost predicate Scoped(t: Spec, vars: set<string>, scope: set<string>) {
    Within(t, MAX_VISIT) && !HasLeaf(t, vars - scope)
  }

  ghost predicate ScopedExpr(e: Expr, vars: set<string>, scope: set<string>) {
    && Scoped(e.typ, vars, scope)
    && (e.kind.Call? || e.kind.TraitCall? ==> forall t :: t in e.kind.generics ==> Scoped(t, vars, scope))
    && (forall x :: x in Children(e) ==> ScopedExpr(x, vars, scope))
  }

  ghost predicate ScopedStmt(t: Stmt, vars: set<string>, scope: set<string>)
    decreases t
  {
    && (forall x :: x in t.exprs ==> ScopedExpr(x, vars, scope))
    && forall b :: b in t.branches ==> ScopedBody(b.body, vars, scope)
  }

  ghost predicate ScopedBody(body: seq<Stmt>, vars: set<string>, scope: set<string>)
    decreases body
  {
    forall t :: t in body ==> ScopedStmt(t, vars, scope)
  }

  ghost predicate ScopedFunction(p: Program, f: Function, vars: set<string>) {
    && Scope(p, f) <= vars
    && (forall x :: x in f.defaults ==> ScopedExpr(x, vars, Scope(p, f)))
    && ScopedBody(f.body, vars, Scope(p, f))
  }

  ghost predicate ScopedProgram(p: Program, vars: set<string>) {
    && (forall f :: f in p.functions ==> ScopedFunction(p, f, vars))
    && ScopedBody(p.top, vars, {})
  }

  // A type without variables.
  ghost predicate Ground(t: Spec, vars: set<string>) { !HasLeaf(t, vars) }

  ghost predicate GroundKey(p: Program, k: Key, vars: set<string>) {
    && k.function' < |p.functions|
    && |k.receiverArgs| == |ReceiverParams(p, p.functions[k.function'])|
    && |k.typeArgs| == |p.functions[k.function'].typeParams|
    && (forall a :: a in k.receiverArgs ==> Ground(a, vars))
    && (forall a :: a in k.typeArgs ==> Ground(a, vars))
  }

  // An instantiation of a scope by types without variables.
  ghost predicate Grounding(s: Substitution, vars: set<string>, scope: set<string>) {
    s.Keys == scope && scope <= vars && forall n :: n in s ==> Ground(s[n], vars)
  }

  lemma {:induction false} BindingsBound(names: seq<string>, args: seq<Spec>)
    requires |names| == |args|
    ensures Bindings(names, args).Keys == NamesOf(names)
    ensures forall n :: n in Bindings(names, args) ==> Bindings(names, args)[n] in args
    decreases |names|
  {
    if names != [] {
      var k := |names| - 1;
      BindingsBound(names[..k], args[..k]);
      assert names == names[..k] + [names[k]];
    }
  }

  lemma GroundKeyGrounds(p: Program, k: Key, vars: set<string>)
    requires GroundKey(p, k, vars) && Scope(p, p.functions[k.function']) <= vars
    ensures Grounding(KeySubstitution(p, k), vars, Scope(p, p.functions[k.function']))
  {
    hide ReceiverParams, HasLeaf;
    BindingsBound(ReceiverParams(p, p.functions[k.function']), k.receiverArgs);
    BindingsBound(p.functions[k.function'].typeParams, k.typeArgs);
  }

  lemma {:induction false} FewerNames(t: Spec, a: set<string>, b: set<string>)
    requires a <= b && !HasLeaf(t, b)
    ensures !HasLeaf(t, a)
    decreases t
  {
    forall q | q in t.params ensures !HasLeaf(q, a) { FewerNames(q, a, b); }
    if t.Func? { FewerNames(t.result, a, b); }
  }

  lemma GroundingCloses(s: Substitution, vars: set<string>, scope: set<string>)
    requires Grounding(s, vars, scope)
    ensures RangesClosed(s)
  {
    forall n | n in Active(s) ensures !HasInnerLeaf(s[n], Active(s)) { FewerNames(s[n], Active(s), vars); }
  }

  // Under such an instantiation the backend's walk is simultaneous substitution and leaves no
  // variable.
  lemma GroundingGrounds(t: Spec, s: Substitution, vars: set<string>, scope: set<string>)
    requires Grounding(s, vars, scope) && Scoped(t, vars, scope)
    ensures Ground(Substitute(t, s), vars) && Substitute(t, s) == Subst(t, s)
  {
    GroundingCloses(s, vars, scope);
    VisitIsSubst(t, s, 0);
    SubstCloses(t, s, vars);
    if |s| == 0 { assert Active(s) == {}; NoNames(t); Untouched(t, s, 0); }
  }

  lemma {:induction false} NoNames(t: Spec)
    ensures !HasLeaf(t, {})
    decreases t
  {
    forall q | q in t.params ensures !HasLeaf(q, {}) { NoNames(q); }
    if t.Func? { NoNames(t.result); }
  }

  // A call met under such an instantiation asks for an instance without variables.
  lemma CallKeyIsGround(p: Program, f: nat, receiver: Option<Spec>, args: seq<Spec>, s: Substitution, vars: set<string>, scope: set<string>)
    requires f < |p.functions| && Grounding(s, vars, scope)
    requires forall a :: a in args ==> Scoped(a, vars, scope)
    requires receiver.Some? ==> Scoped(receiver.value, vars, scope)
    requires CallKey(p, f, receiver, args, s).Some?
    ensures GroundKey(p, CallKey(p, f, receiver, args, s).value, vars)
  {
    hide Specialises, ReceiverParams, Substitute, Grounding, Scoped;
    forall a | a in SubstituteAll(args, s) ensures Ground(a, vars) {
      var i :| 0 <= i < |args| && SubstituteAll(args, s)[i] == a;
      assert args[i] in args;
      GroundingGrounds(args[i], s, vars, scope);
    }
    if receiver.Some? {
      GroundingGrounds(receiver.value, s, vars, scope);
    }
  }

  // ---- the variable-free part of a closed plan is closed -------------------------------------------

  ghost function GroundPart(p: Program, q: Plan, vars: set<string>): Plan {
    Plan(q.structs, iset k | k in q.keys && GroundKey(p, k, vars))
  }

  lemma SiteInGroundPart(p: Program, q: Plan, e: Expr, s: Substitution, vars: set<string>, scope: set<string>)
    requires p.Valid() && SitePlanned(p, q, e, s) && ScopedExpr(e, vars, scope) && Grounding(s, vars, scope)
    ensures SitePlanned(p, GroundPart(p, q, vars), e, s)
  {
    hide CallKey, LowersStruct, NeedsSpecialization, TraitReady, Substitute, Grounding, Scoped, GroundKey, FindImplementation;
    var callee := Callee(p, e, s);
    if callee.Some? && NeedsSpecialization(p, p.functions[callee.value]) {
      if e.receiver.Some? { assert e.receiver.value in Children(e) && ScopedExpr(e.receiver.value, vars, scope); }
      CallKeyIsGround(p, callee.value, ReceiverType(e), e.kind.generics, s, vars, scope);
    }
  }

  lemma {:induction false} ExprInGroundPart(p: Program, q: Plan, e: Expr, s: Substitution, vars: set<string>, scope: set<string>)
    requires p.Valid() && ExprPlanned(p, q, e, s) && ScopedExpr(e, vars, scope) && Grounding(s, vars, scope)
    ensures ExprPlanned(p, GroundPart(p, q, vars), e, s)
    decreases e
  {
    hide SitePlanned, GroundPart, Grounding, Scoped;
    SiteInGroundPart(p, q, e, s, vars, scope);
    forall x | x in Children(e) ensures ExprPlanned(p, GroundPart(p, q, vars), x, s) { ExprInGroundPart(p, q, x, s, vars, scope); }
  }

  lemma {:induction false} BodyInGroundPart(p: Program, q: Plan, body: seq<Stmt>, s: Substitution, vars: set<string>, scope: set<string>)
    requires p.Valid() && BodyPlanned(p, q, body, s) && ScopedBody(body, vars, scope) && Grounding(s, vars, scope)
    ensures BodyPlanned(p, GroundPart(p, q, vars), body, s)
    decreases body
  {
    hide ExprPlanned, GroundPart, Grounding, ScopedExpr;
    forall t | t in body ensures StmtPlanned(p, GroundPart(p, q, vars), t, s) {
      assert StmtPlanned(p, q, t, s) && ScopedStmt(t, vars, scope);
      forall x | x in t.exprs ensures ExprPlanned(p, GroundPart(p, q, vars), x, s) { ExprInGroundPart(p, q, x, s, vars, scope); }
      forall b | b in t.branches ensures BodyPlanned(p, GroundPart(p, q, vars), b.body, s) { BodyInGroundPart(p, q, b.body, s, vars, scope); }
    }
  }

  lemma FunctionInGroundPart(p: Program, q: Plan, f: Function, s: Substitution, vars: set<string>)
    requires p.Valid() && FunctionPlanned(p, q, f, s) && ScopedFunction(p, f, vars) && Grounding(s, vars, Scope(p, f))
    ensures FunctionPlanned(p, GroundPart(p, q, vars), f, s)
  {
    hide ExprPlanned, BodyPlanned, GroundPart, Grounding, ScopedExpr, ScopedBody, Scope;
    forall x | x in f.defaults ensures ExprPlanned(p, GroundPart(p, q, vars), x, s) { ExprInGroundPart(p, q, x, s, vars, Scope(p, f)); }
    BodyInGroundPart(p, q, f.body, s, vars, Scope(p, f));
  }

  lemma GroundPartIsClosed(p: Program, q: Plan, vars: set<string>)
    requires p.Valid() && ClosedPlan(p, q) && ScopedProgram(p, vars)
    ensures ClosedPlan(p, GroundPart(p, q, vars))
  {
    hide FunctionPlanned, BodyPlanned, KeySubstitution, LowersStruct, ScopedFunction, ScopedBody, Grounding, GroundKey;
    var g := GroundPart(p, q, vars);
    assert StructsPlanned(p, g, p.structs);
    forall i | 0 <= i < |p.functions| && !NeedsSpecialization(p, p.functions[i]) ensures FunctionPlanned(p, g, p.functions[i], map[]) {
      OrdinaryGrounding(p, p.functions[i], vars);
      assert p.functions[i] in p.functions;
      FunctionInGroundPart(p, q, p.functions[i], map[], vars);
    }
    TopGrounding(vars);
    BodyInGroundPart(p, q, p.top, map[], vars, {});
    forall k | k in g.keys ensures KeyPlanned(p, g, k) {
      assert KeyPlanned(p, q, k);
      assert p.functions[k.function'] in p.functions;
      ScopeFits(p, p.functions[k.function'], vars);
      GroundKeyGrounds(p, k, vars);
      FunctionInGroundPart(p, q, p.functions[k.function'], KeySubstitution(p, k), vars);
    }
  }

  lemma GroundKeyInRange(p: Program, k: Key, vars: set<string>)
    requires GroundKey(p, k, vars)
    ensures k.function' < |p.functions|
  {}

  lemma ScopeFits(p: Program, f: Function, vars: set<string>)
    requires ScopedFunction(p, f, vars)
    ensures Scope(p, f) <= vars
  {}

  lemma TopGrounding(vars: set<string>)
    ensures Grounding(map[], vars, {})
  {}

  lemma OrdinaryGrounding(p: Program, f: Function, vars: set<string>)
    requires !NeedsSpecialization(p, f)
    ensures Grounding(map[], vars, Scope(p, f))
  {}

  // Every planned instance of a well-scoped program is free of type variables, so specialising
  // any type of its body is simultaneous substitution and leaves no variable.
  lemma InstancesAreGround(p: Program, vars: set<string>, k: Key)
    requires p.Valid() && ScopedProgram(p, vars) && k in Least(p).keys
    requires exists q :: ClosedPlan(p, q)
    ensures GroundKey(p, k, vars) && RangesClosed(KeySubstitution(p, k))
    ensures forall t :: Scoped(t, vars, Scope(p, p.functions[k.function'])) ==>
      Substitute(t, KeySubstitution(p, k)) == Subst(t, KeySubstitution(p, k)) && Ground(Subst(t, KeySubstitution(p, k)), vars)
  {
    hide ClosedPlan, KeySubstitution, GroundKey, Scoped, Ground, Substitute, ScopedFunction;
    var q :| ClosedPlan(p, q);
    GroundPartIsClosed(p, q, vars);
    assert k in GroundPart(p, q, vars).keys;
    GroundKeyInRange(p, k, vars);
    var f := p.functions[k.function'];
    assert f in p.functions;
    ScopeFits(p, f, vars);
    GroundKeyGrounds(p, k, vars);
    forall t | Scoped(t, vars, Scope(p, f))
      ensures Substitute(t, KeySubstitution(p, k)) == Subst(t, KeySubstitution(p, k)) && Ground(Subst(t, KeySubstitution(p, k)), vars)
    {
      GroundingGrounds(t, KeySubstitution(p, k), vars, Scope(p, f));
    }
    GroundingCloses(KeySubstitution(p, k), vars, Scope(p, f));
  }
}
