// Matching a call against one declared function: the checker's inference of its type arguments.
module Infer {
  import opened Wrappers
  import opened TypeSpecs
  import opened Unify

  datatype ArgKind = Lambda | FunctionName(unique: bool) | Plain

  // An argument, with the type checking it gives when a type is expected of it.
  datatype Arg = Arg(kind: ArgKind, check: Option<Type> -> Option<Type>)

  datatype Callee = Callee(typeParams: seq<Param>, receiver: Option<Spec>, params: seq<Spec>, minArgs: nat, result: Spec)

  // ---- the types in scope of a match ----------------------------------------------------------------

  function Declare(ps: seq<Param>): (r: Params)
    ensures forall p :: p in ps ==> p.name in r
  {
    if ps == [] then map[]
    else
      var k := |ps| - 1;
      Declare(ps[..k])[ps[k].name := Generic(ps[k].name, ps[k].constraint)]
  }

  // The function's own type parameters, then those of the generic struct it is a method of.
  function Scope(d: Decls, f: Callee): Params {
    if f.receiver.Some? && f.receiver.value.Named? && f.receiver.value.name in d.structs then
      Declare(d.structs[f.receiver.value.name]) + Declare(f.typeParams)
    else Declare(f.typeParams)
  }

  // Parameter `i` is the last of its name.
  predicate LastOfName(ps: seq<Param>, i: nat) {
    i < |ps| && forall j :: i < j < |ps| ==> ps[j].name != ps[i].name
  }

  predicate Names(ps: seq<Param>, n: string) { exists i :: 0 <= i < |ps| && ps[i].name == n }

  lemma DeclareExactly(ps: seq<Param>)
    ensures forall n :: n in Declare(ps) <==> Names(ps, n)
    ensures forall i: nat :: LastOfName(ps, i) ==> Declare(ps)[ps[i].name] == Generic(ps[i].name, ps[i].constraint)
  {
    hide Declare;
    forall n ensures n in Declare(ps) <==> Names(ps, n) { DeclaresNames(ps, n); }
    forall i: nat | LastOfName(ps, i) ensures Declare(ps)[ps[i].name] == Generic(ps[i].name, ps[i].constraint) { DeclaresLast(ps, i); }
  }

  lemma {:induction false} DeclaresNames(ps: seq<Param>, n: string)
    ensures n in Declare(ps) <==> Names(ps, n)
  {
    if ps != [] {
      var k := |ps| - 1;
      var rest := ps[..k];
      DeclaresNames(rest, n);
      if Names(rest, n) {
        var i :| 0 <= i < |rest| && rest[i].name == n;
        assert ps[i].name == n;
      }
      if Names(ps, n) && ps[k].name != n {
        var i :| 0 <= i < |ps| && ps[i].name == n;
        assert rest[i].name == n;
      }
    }
  }

  lemma {:induction false} DeclaresLast(ps: seq<Param>, i: nat)
    requires LastOfName(ps, i)
    ensures Declare(ps)[ps[i].name] == Generic(ps[i].name, ps[i].constraint)
  {
    var k := |ps| - 1;
    if i < k {
      assert ps[k].name != ps[i].name;
      DeclaresLast(ps[..k], i);
    }
  }

  // In scope are the function's type parameters, with their own constraints, and those of the struct it is
  // declared on that it does not declare again.
  lemma ScopeExactly(d: Decls, f: Callee)
    ensures forall n :: n in Scope(d, f) <==>
      Names(f.typeParams, n)
      || (f.receiver.Some? && f.receiver.value.Named? && f.receiver.value.name in d.structs && Names(d.structs[f.receiver.value.name], n))
    ensures forall i: nat :: LastOfName(f.typeParams, i) ==>
      && Scope(d, f)[f.typeParams[i].name] == Generic(f.typeParams[i].name, f.typeParams[i].constraint)
      && Limits(Scope(d, f))[f.typeParams[i].name] == f.typeParams[i].constraint
    ensures f.receiver.Some? && f.receiver.value.Named? && f.receiver.value.name in d.structs ==>
      var own := d.structs[f.receiver.value.name];
      forall i: nat :: LastOfName(own, i) && !Names(f.typeParams, own[i].name) ==>
        Scope(d, f)[own[i].name] == Generic(own[i].name, own[i].constraint)
  {
    DeclareExactly(f.typeParams);
    if f.receiver.Some? && f.receiver.value.Named? && f.receiver.value.name in d.structs { DeclareExactly(d.structs[f.receiver.value.name]); }
    hide Declare, LastOfName, Names;
    assert forall i: nat :: LastOfName(f.typeParams, i) ==> i < |f.typeParams| && Names(f.typeParams, f.typeParams[i].name) by { NamesItself(f.typeParams); }
  }

  lemma NamesItself(ps: seq<Param>)
    ensures forall i: nat :: i < |ps| ==> Names(ps, ps[i].name)
    ensures forall i: nat :: LastOfName(ps, i) ==> i < |ps|
  {}

  function Limits(scope: Params): (cs: Constraints)
    ensures cs.Keys == scope.Keys
  {
    map n | n in scope :: if scope[n].Generic? then scope[n].constraint else ""
  }

  predicate HasUnresolved(spec: Spec, params: Params) {
    HasLeaf(spec, set n | n in params && params[n].Generic?)
  }

  // A parameter is unresolved while it stands for itself.
  lemma UnresolvedExactly(spec: Spec, params: Params)
    ensures HasUnresolved(spec, params) <==> exists path, n :: n in params && params[n].Generic? && LeafAt(spec, path, n)
  {
    LeavesExactly(spec, set n | n in params && params[n].Generic?);
  }

  lemma ResultIsGenericExactly(f: Callee)
    ensures ResultIsGeneric(f) <==> exists path, i :: 0 <= i < |f.typeParams| && LeafAt(f.result, path, f.typeParams[i].name)
  {
    LeavesExactly(f.result, set p | p in f.typeParams :: p.name);
    if ResultIsGeneric(f) {
      var path, n :| n in (set p | p in f.typeParams :: p.name) && LeafAt(f.result, path, n);
      var i :| 0 <= i < |f.typeParams| && f.typeParams[i].name == n;
      assert LeafAt(f.result, path, f.typeParams[i].name);
    }
  }

  predicate ResultIsGeneric(f: Callee) { HasLeaf(f.result, set p | p in f.typeParams :: p.name) }

  // ---- what a match means --------------------------------------------------------------------------

  // The spec was unified with the type, and nothing since has undone it.
  ghost predicate Unified(d: Decls, cs: Constraints, spec: Spec, actual: Type, now: State) {
    exists st :: UnifiedFrom(d, cs, spec, actual, now, st)
  }

  ghost predicate UnifiedFrom(d: Decls, cs: Constraints, spec: Spec, actual: Type, now: State, st: State) {
    UnifySpec(d, cs, st, spec, actual, 0).0 && Extends(d, cs, UnifySpec(d, cs, st, spec, actual, 0).1, now)
  }

  lemma UnifiedStays(d: Decls, cs: Constraints, spec: Spec, actual: Type, a: State, b: State)
    requires Unified(d, cs, spec, actual, a) && Extends(d, cs, a, b)
    ensures Unified(d, cs, spec, actual, b)
  {
    hide UnifySpec, Extends;
    var st :| UnifiedFrom(d, cs, spec, actual, a, st);
    ExtendsTrans(d, cs, UnifySpec(d, cs, st, spec, actual, 0).1, a, b);
    assert UnifiedFrom(d, cs, spec, actual, b, st);
  }

  // What was unified stands under the final substitution: the parameter's type is the argument's,
  // exactly when the test that unification leaves out would have passed.
  lemma UnifiedIsSound(d: Decls, cs: Constraints, spec: Spec, actual: Type, now: State)
    requires Unified(d, cs, spec, actual, now)
    requires Unshadowed(now.params.Keys) && Avoids(actual, now.params.Keys) && WellFormed(d, actual)
    ensures Resolve(d, now.params, spec, 0) == Some(actual) <==> Exact(now.params.Keys, spec, actual)
  {
    var st :| UnifiedFrom(d, cs, spec, actual, now, st);
    UnifySound(d, cs, st, spec, actual, 0, now.params);
  }

  ghost predicate CheckedAs(a: Arg, t: Type) { exists e :: a.check(e) == Some(t) }

  // Whatever is inferred so far, checking against the resolved spec gives the type the parameter
  // has under the instantiation.
  ghost predicate Steady(d: Decls, a: Arg, spec: Spec, g: Params, t: Params) {
    forall q :: Between(q, g, t) ==> a.check(Resolve(d, q, spec, 0)) == Resolve(d, t, spec, 0)
  }

  // The argument has the type its parameter has under an instantiation of the scope. A lambda and
  // the name of one function have it by themselves. The name of an overloaded or generic function
  // has it once that type is expected; then every parameter its spec mentions must be among those
  // that are settled without such names.
  ghost predicate Suits(d: Decls, a: Arg, spec: Spec, g: Params, t: Params, early: set<string>) {
    && Ordinary(spec) && Resolvable(d, g, t, spec, 0)
    && var actual := Resolve(d, t, spec, 0);
    match a.kind
    case Plain => Steady(d, a, spec, g, t)
    case FunctionName(false) => Steady(d, a, spec, g, t) || (a.check(actual) == actual && MentionsOnly(spec, g, early))
    case _ => a.check(None) == actual && a.check(actual) == actual
  }

  ghost predicate MentionsOnly(spec: Spec, g: Params, names: set<string>) { forall n :: n in g && Mentioned(spec, n) ==> n in names }

  ghost predicate AllSuit(d: Decls, f: Callee, args: seq<Arg>, g: Params, t: Params, early: set<string>) {
    f.minArgs <= |args| <= |f.params| && forall i :: 0 <= i < |args| ==> Suits(d, args[i], f.params[i], g, t, early)
  }

  // The receiver has its declared type under the instantiation, and is given when there is one.
  ghost predicate ReceiverSuits(d: Decls, f: Callee, receiver: Option<Type>, g: Params, t: Params) {
    f.receiver.Some? && receiver.Some? ==>
      Ordinary(f.receiver.value) && Resolvable(d, g, t, f.receiver.value, 0) && Resolve(d, t, f.receiver.value, 0) == receiver
  }

  // A generic result has the expected type, one that can be compared with itself.
  ghost predicate ResultSuits(d: Decls, f: Callee, expected: Option<Type>, t: Params) {
    expected.Some? && ResultIsGeneric(f) ==>
      Ordinary(f.result) && Resolve(d, t, f.result, 0) == expected && Compatible(expected.value, expected.value)
  }

  // The receiver, an argument that does not wait, or an expected result mentions the parameter.
  ghost predicate MentionedEarly(f: Callee, args: seq<Arg>, receiver: Option<Type>, expected: Option<Type>, n: string) {
    || (f.receiver.Some? && receiver.Some? && Mentioned(f.receiver.value, n))
    || (exists i :: 0 <= i < |args| && i < |f.params| && args[i].kind != FunctionName(false) && Mentioned(f.params[i], n))
    || (expected.Some? && ResultIsGeneric(f) && Mentioned(f.result, n))
  }

  ghost function Early(f: Callee, args: seq<Arg>, receiver: Option<Type>, expected: Option<Type>, g: Params): set<string> {
    set n | n in g && MentionedEarly(f, args, receiver, expected, n)
  }

  // Every type parameter is mentioned by the receiver, an argument's parameter or an expected
  // result.
  ghost predicate AllMentioned(f: Callee, args: seq<Arg>, receiver: Option<Type>, expected: Option<Type>) {
    forall p :: p in f.typeParams ==>
      MentionedEarly(f, args, receiver, expected, p.name) || exists i :: 0 <= i < |args| && i < |f.params| && Mentioned(f.params[i], p.name)
  }

  // An instantiation under which the call is well typed.
  ghost predicate WellTyped(d: Decls, f: Callee, args: seq<Arg>, receiver: Option<Type>, expected: Option<Type>, t: Params) {
    var g := Scope(d, f);
    && g.Keys == t.Keys && Instantiation(d, Limits(g), t)
    && AllSuit(d, f, args, g, t, Early(f, args, receiver, expected, g))
    && ReceiverSuits(d, f, receiver, g, t) && ResultSuits(d, f, expected, t) && AllMentioned(f, args, receiver, expected)
    && Resolvable(d, g, t, f.result, 0)
  }

  ghost predicate AllGeneric(g: Params) { forall n :: n in g ==> g[n].Generic? }

  lemma {:induction false} DeclaredGeneric(ps: seq<Param>)
    ensures AllGeneric(Declare(ps))
  {
    if ps != [] { DeclaredGeneric(ps[..|ps| - 1]); }
  }

  lemma ScopeIsGeneric(d: Decls, f: Callee)
    ensures AllGeneric(Scope(d, f))
  {
    DeclaredGeneric(f.typeParams);
    if f.receiver.Some? && f.receiver.value.Named? && f.receiver.value.name in d.structs { DeclaredGeneric(d.structs[f.receiver.value.name]); }
  }

  // A spec without unresolved parameters already means what it will mean.
  lemma ResolvedIsFinal(d: Decls, g: Params, t: Params, spec: Spec, st: State)
    requires AllGeneric(g) && Towards(st, g, t) && !HasUnresolved(spec, st.params)
    ensures Resolve(d, st.params, spec, 0) == Resolve(d, t, spec, 0)
  {
    hide Resolve, HasLeaf;
    var names := set n | n in st.params && st.params[n].Generic?;
    forall n | n in t && Mentioned(spec, n) ensures st.params[n] == t[n] {
      if n in names { NoLeaf(spec, names, n); }
    }
    ResolveAgrees(d, st.params, t, spec, 0);
  }

  lemma InferredIsFinal(d: Decls, g: Params, t: Params, spec: Spec, st: State)
    requires Towards(st, g, t) && MentionsOnly(spec, g, st.inferred)
    ensures Resolve(d, st.params, spec, 0) == Resolve(d, t, spec, 0)
  {
    hide Resolve;
    ResolveAgrees(d, st.params, t, spec, 0);
  }

  // ---- the checker ----------------------------------------------------------------------------------

  class Checker {
    const decls: Decls
    var typeParams: Params
    var constraints: Constraints
    var inferred: set<string>

    constructor (d: Decls)
      ensures decls == d && typeParams == map[]
    {
      decls := d;
      typeParams, constraints, inferred := map[], map[], {};
    }

    ghost function Now(): State
      reads this
    {
      State(typeParams, inferred)
    }

    method UnifyGenericSpec(spec: Spec, actual: Type, depth: nat) returns (ok: bool)
      modifies this`typeParams, this`inferred
      ensures (ok, Now()) == UnifySpec(decls, constraints, old(Now()), spec, actual, depth)
      decreases spec
    {
      hide Resolve, TypeEqual, Head;
      if depth > decls.maxDepth { return false; }
      match spec {
        case Func(ps, r) =>
          if !actual.Function? || |ps| != |actual.params| { return false; }
          ok := UnifyEach(ps, actual.params, depth + 1);
          if !ok { return; }
          ok := UnifyGenericSpec(r, actual.result, depth + 1);
        case Named(n, ps) =>
          if ps == [] {
            if n in typeParams {
              if actual.Generic? && actual.name == n { return true; }
              if n in inferred { return TypeEqual(typeParams[n], actual, 0); }
              if !decls.satisfies(actual, ConstraintOf(constraints, n)) { return false; }
              typeParams := typeParams[n := actual];
              inferred := inferred + {n};
              return true;
            }
            var expected := Resolve(decls, typeParams, spec, depth);
            return expected.Some? && Compatible(expected.value, actual);
          }
          var shape := Resolve(decls, typeParams, spec, depth);
          if shape.None? || !SameKind(shape.value, actual) { return false; }
          var arguments := Arguments(actual);
          if |ps| != |arguments| { return false; }
          ok := UnifyEach(ps, arguments, depth + 1);
      }
    }

    method UnifyEach(specs: seq<Spec>, actuals: seq<Type>, depth: nat) returns (ok: bool)
      requires |specs| == |actuals|
      modifies this`typeParams, this`inferred
      ensures (ok, Now()) == UnifyAll(decls, constraints, old(Now()), specs, actuals, depth)
      decreases specs
    {
      hide UnifySpec;
      assert specs[0..] == specs && actuals[0..] == actuals;
      for i := 0 to |specs|
        invariant UnifyAll(decls, constraints, Now(), specs[i..], actuals[i..], depth) == UnifyAll(decls, constraints, old(Now()), specs, actuals, depth)
      {
        assert specs[i..][1..] == specs[i + 1..] && actuals[i..][1..] == actuals[i + 1..];
        assert specs[i] in specs;
        ok := UnifyGenericSpec(specs[i], actuals[i], depth);
        if !ok { return; }
      }
      ok := true;
    }

    // An argument that does not wait, or no longer.
    method UnifyArgument(a: Arg, spec: Spec, expected: Option<Type>, ghost g: Params, ghost t: Params) returns (ok: bool, ghost actual: Type)
      modifies this`typeParams, this`inferred
      ensures Extends(decls, constraints, old(Now()), Now())
      ensures ok ==> Unified(decls, constraints, spec, actual, Now()) && CheckedAs(a, actual)
      ensures Ordinary(spec) && Resolvable(decls, g, t, spec, 0) && a.check(expected) == Resolve(decls, t, spec, 0) != None && Instantiation(decls, constraints, t) && Towards(old(Now()), g, t) ==>
        ok && Towards(Now(), g, t) && Covered(spec, Now())
    {
      hide UnifySpec, Extends, Towards, Covered, Resolvable, Instantiation, Ordinary, Resolve;
      UnifyNothing(decls, constraints, Now());
      var checked := a.check(expected);
      if checked.None? { return false, Unknown; }
      actual := checked.value;
      UnifyExtends(decls, constraints, Now(), spec, actual, 0);
      if Ordinary(spec) && Resolvable(decls, g, t, spec, 0) && Resolve(decls, t, spec, 0) == Some(actual) && Instantiation(decls, constraints, t) && Towards(Now(), g, t) {
        UnifyComplete(decls, constraints, Now(), spec, actual, 0, g, t);
      }
      ghost var before := Now();
      ok := UnifyGenericSpec(spec, checked.value, 0);
      if ok {
        UnifyNothing(decls, constraints, Now());
        assert UnifiedFrom(decls, constraints, spec, actual, Now(), before);
      }
    }

    // One argument of the first round: unified at once, or left for later.
    method FirstRound(a: Arg, spec: Spec, ghost g: Params, ghost t: Params, ghost early: set<string>) returns (ok: bool, waits: bool, ghost actual: Type)
      modifies this`typeParams, this`inferred
      ensures Extends(decls, constraints, old(Now()), Now())
      ensures ok && !waits ==> Unified(decls, constraints, spec, actual, Now()) && CheckedAs(a, actual)
      ensures waits ==> a.kind == FunctionName(false)
      ensures AllGeneric(g) && Suits(decls, a, spec, g, t, early) && Instantiation(decls, constraints, t) && Towards(old(Now()), g, t) ==>
        ok && Towards(Now(), g, t) && (!waits ==> Covered(spec, Now()))
    {
      hide UnifySpec, Extends, Unified, Covered, Instantiation, Ordinary, Resolve, HasUnresolved, Resolvable, MentionsOnly;
      UnifyNothing(decls, constraints, Now());
      waits := false;
      if AllGeneric(g) && Suits(decls, a, spec, g, t, early) && Towards(Now(), g, t) {
        BothResolve(decls, g, t, spec, Now());
        if !HasUnresolved(spec, typeParams) { ResolvedIsFinal(decls, g, t, spec, Now()); }
      }
      if HasUnresolved(spec, typeParams) {
        if a.kind == Lambda || a.kind == FunctionName(true) {
          ok, actual := UnifyArgument(a, spec, None, g, t);
          return;
        }
        if a.kind == FunctionName(false) { return true, true, Unknown; }
      }
      var expected := Resolve(decls, typeParams, spec, 0);
      if expected.None? { return false, false, Unknown; }
      ok, actual := UnifyArgument(a, spec, expected, g, t);
    }

    // An argument that waited.
    method SecondRound(a: Arg, spec: Spec, ghost g: Params, ghost t: Params, ghost early: set<string>) returns (ok: bool, ghost actual: Type)
      modifies this`typeParams, this`inferred
      ensures Extends(decls, constraints, old(Now()), Now())
      ensures ok ==> Unified(decls, constraints, spec, actual, Now()) && CheckedAs(a, actual)
      ensures a.kind == FunctionName(false) && early <= old(inferred) && Suits(decls, a, spec, g, t, early) && Instantiation(decls, constraints, t) && Towards(old(Now()), g, t) ==>
        ok && Towards(Now(), g, t) && Covered(spec, Now())
    {
      hide UnifySpec, Extends, Unified, Covered, Instantiation, Ordinary, Resolve, Resolvable;
      UnifyNothing(decls, constraints, Now());
      if Suits(decls, a, spec, g, t, early) && Towards(Now(), g, t) {
        BothResolve(decls, g, t, spec, Now());
        if early <= inferred && MentionsOnly(spec, g, early) { InferredIsFinal(decls, g, t, spec, Now()); }
      }
      var expected := Resolve(decls, typeParams, spec, 0);
      if expected.None? { return false, Unknown; }
      ok, actual := UnifyArgument(a, spec, expected, g, t);
    }

    ghost predicate Settled(f: Callee, args: seq<Arg>, actuals: seq<Type>, i: nat)
      requires i < |args| == |actuals| && |args| <= |f.params|
      reads this
    {
      Unified(decls, constraints, f.params[i], actuals[i], Now()) && CheckedAs(args[i], actuals[i])
    }

    ghost predicate Suited(f: Callee, args: seq<Arg>, g: Params, t: Params, early: set<string>)
      reads this`constraints
    {
      AllGeneric(g) && AllSuit(decls, f, args, g, t, early) && Instantiation(decls, constraints, t)
    }

    method FirstRounds(f: Callee, args: seq<Arg>, ghost g: Params, ghost t: Params, ghost early: set<string>) returns (ok: bool, waiting: seq<nat>, ghost actuals: seq<Type>)
      requires |args| <= |f.params|
      modifies this`typeParams, this`inferred
      ensures Extends(decls, constraints, old(Now()), Now())
      ensures ok ==> |actuals| == |args| && (forall i :: i in waiting ==> i < |args| && args[i].kind == FunctionName(false))
      ensures ok ==> forall i: nat :: i < |args| && i !in waiting ==> Settled(f, args, actuals, i)
      ensures Suited(f, args, g, t, early) && Towards(old(Now()), g, t) ==>
        ok && Towards(Now(), g, t) && forall i: nat :: i < |args| && i !in waiting ==> Covered(f.params[i], Now())
    {
      hide Extends, Unified, CheckedAs, Covered, Suits, Instantiation, Towards, AllGeneric;
      waiting, actuals := [], [];
      UnifyNothing(decls, constraints, Now());
      for k := 0 to |args|
        invariant Extends(decls, constraints, old(Now()), Now()) && constraints == old(constraints)
        invariant |actuals| == k && forall i :: i in waiting ==> i < k && args[i].kind == FunctionName(false)
        invariant forall i: nat :: i < k && i !in waiting ==> Unified(decls, constraints, f.params[i], actuals[i], Now()) && CheckedAs(args[i], actuals[i])
        invariant Suited(f, args, g, t, early) && Towards(old(Now()), g, t) ==> Towards(Now(), g, t) && forall i: nat :: i < k && i !in waiting ==> Covered(f.params[i], Now())
      {
        ghost var before := Now();
        var waits;
        ghost var actual;
        ok, waits, actual := FirstRound(args[k], f.params[k], g, t, early);
        ExtendsTrans(decls, constraints, old(Now()), before, Now());
        if !ok { return; }
        forall i: nat | i < k && i !in waiting ensures Unified(decls, constraints, f.params[i], actuals[i], Now()) {
          UnifiedStays(decls, constraints, f.params[i], actuals[i], before, Now());
        }
        CoverageStays(decls, constraints, f.params, before, Now());
        if waits { waiting := waiting + [k]; }
        actuals := actuals + [actual];
      }
      ok := true;
    }

    method SecondRounds(f: Callee, args: seq<Arg>, waiting: seq<nat>, ghost first: seq<Type>, ghost g: Params, ghost t: Params, ghost early: set<string>) returns (ok: bool, ghost actuals: seq<Type>)
      requires |args| <= |f.params| && |first| == |args| && forall i :: i in waiting ==> i < |args| && args[i].kind == FunctionName(false)
      requires forall i: nat :: i < |args| && i !in waiting ==> Settled(f, args, first, i)
      modifies this`typeParams, this`inferred
      ensures Extends(decls, constraints, old(Now()), Now())
      ensures ok ==> |actuals| == |args| && forall i: nat :: i < |args| ==> Settled(f, args, actuals, i)
      ensures Suited(f, args, g, t, early) && Towards(old(Now()), g, t) && early <= old(inferred) && (forall i: nat :: i < |args| && i !in waiting ==> Covered(f.params[i], old(Now()))) ==>
        ok && Towards(Now(), g, t) && forall i: nat :: i < |args| ==> Covered(f.params[i], Now())
    {
      hide Extends, Unified, CheckedAs, Covered, Suits, Instantiation, Towards;
      actuals := first;
      UnifyNothing(decls, constraints, Now());
      for k := 0 to |waiting|
        invariant Extends(decls, constraints, old(Now()), Now()) && constraints == old(constraints)
        invariant |actuals| == |args|
        invariant forall i: nat :: i < |args| && i !in waiting[k..] ==> Unified(decls, constraints, f.params[i], actuals[i], Now()) && CheckedAs(args[i], actuals[i])
        invariant old(inferred) <= inferred
        invariant Suited(f, args, g, t, early) && Towards(old(Now()), g, t) && early <= old(inferred) && (forall i: nat :: i < |args| && i !in waiting ==> Covered(f.params[i], old(Now()))) ==>
          Towards(Now(), g, t) && forall i: nat :: i < |args| && i !in waiting[k..] ==> Covered(f.params[i], Now())
      {
        ghost var before := Now();
        var w := waiting[k];
        assert w in waiting && waiting[k..] == [w] + waiting[k + 1..];
        ghost var actual;
        ok, actual := SecondRound(args[w], f.params[w], g, t, early);
        MoreInferred(decls, constraints, before, Now());
        ExtendsTrans(decls, constraints, old(Now()), before, Now());
        if !ok { return; }
        forall i: nat | i < |args| && i !in waiting[k..] ensures Unified(decls, constraints, f.params[i], actuals[i], Now()) {
          UnifiedStays(decls, constraints, f.params[i], actuals[i], before, Now());
        }
        CoverageStays(decls, constraints, f.params, before, Now());
        actuals := actuals[w := actual];
      }
      ok := true;
    }

    // The match of a call. The checker's own scope comes back; the substitution found is what the
    // result type and the recorded type arguments are read off.
    method MatchFunctionCall(f: Callee, args: seq<Arg>, expectedReturn: Option<Type>, receiver: Option<Type>, ghost t: Params)
      returns (r: Option<Match>, ghost fin: State, ghost actuals: seq<Type>)
      modifies this
      ensures typeParams == old(typeParams)
      ensures r.Some? ==> Matched(decls, f, args, r.value, fin, actuals)
      ensures r.Some? ==> forall i :: 0 <= i < |args| ==> StandsUnder(decls, fin.params, f.params[i], actuals[i])
      ensures r.Some? ==> |r.value.arguments| == |f.typeParams|
      ensures r.Some? ==> forall i: nat :: LastOfName(f.typeParams, i) ==> decls.satisfies(r.value.arguments[i], f.typeParams[i].constraint)
      ensures WellTyped(decls, f, args, receiver, expectedReturn, t) ==>
        r.Some? && Towards(fin, Scope(decls, f), t) && forall i :: 0 <= i < |f.typeParams| ==> f.typeParams[i].name in t && r.value.arguments[i] == t[f.typeParams[i].name]
    {
      if |args| < f.minArgs || |args| > |f.params| { return None, State(map[], {}), []; }
      var previous := typeParams;
      typeParams, inferred := Scope(decls, f), {};
      constraints := Limits(typeParams);
      r, fin, actuals := MatchInScope(f, args, expectedReturn, receiver, t);
      if r.Some? {
        ArgumentsFit(decls, f, args, r.value, fin, actuals);
        forall i | 0 <= i < |args| ensures StandsUnder(decls, fin.params, f.params[i], actuals[i]) {
          if Unshadowed(fin.params.Keys) && Avoids(actuals[i], fin.params.Keys) && WellFormed(decls, actuals[i]) {
            UnifiedIsSound(decls, constraints, f.params[i], actuals[i], fin);
          }
        }
      }
      typeParams := previous;
    }

    method MatchInScope(f: Callee, args: seq<Arg>, expectedReturn: Option<Type>, receiver: Option<Type>, ghost t: Params)
      returns (r: Option<Match>, ghost fin: State, ghost actuals: seq<Type>)
      requires f.minArgs <= |args| <= |f.params| && Now() == State(Scope(decls, f), {}) && constraints == Limits(Scope(decls, f))
      modifies this`typeParams, this`inferred
      ensures r.Some? ==> Matched(decls, f, args, r.value, fin, actuals)
      ensures WellTyped(decls, f, args, receiver, expectedReturn, t) ==>
        r.Some? && Towards(fin, Scope(decls, f), t) && forall i :: 0 <= i < |f.typeParams| ==> f.typeParams[i].name in t && r.value.arguments[i] == t[f.typeParams[i].name]
    {
      hide Extends, Unified, CheckedAs, Covered, Suits, Instantiation, UnifySpec, Resolvable, Resolve, ReceiverSuits, Mentioned, Scope, Limits, Compatible, ResultIsGeneric;
      ghost var g := Scope(decls, f);
      fin := Now();
      StartsTowards(fin, g, t);
      ScopeIsGeneric(decls, f);
      var ok;
      ok, actuals := UnifyArguments(f, args, expectedReturn, receiver, g, t);
      if !ok { return None, fin, actuals; }
      fin := Now();
      ScopeDeclares(decls, constraints, f, fin);
      if WellTyped(decls, f, args, receiver, expectedReturn, t) {
        EverythingInferred(f, args, receiver, expectedReturn, fin, t, g);
      }
      r := Conclude(f, expectedReturn);
    }

    // The receiver, the arguments, the expected result, and the arguments that waited.
    method UnifyArguments(f: Callee, args: seq<Arg>, expectedReturn: Option<Type>, receiver: Option<Type>, ghost g: Params, ghost t: Params)
      returns (ok: bool, ghost actuals: seq<Type>)
      requires |args| <= |f.params|
      modifies this`typeParams, this`inferred
      ensures Extends(decls, constraints, old(Now()), Now())
      ensures ok ==> |actuals| == |args|
      ensures ok ==> forall i :: 0 <= i < |args| ==> Unified(decls, constraints, f.params[i], actuals[i], Now()) && CheckedAs(args[i], actuals[i])
      ensures Suited(f, args, g, t, Early(f, args, receiver, expectedReturn, g)) && Towards(old(Now()), g, t) && ReceiverSuits(decls, f, receiver, g, t) && ResultSuits(decls, f, expectedReturn, t) && Resolvable(decls, g, t, f.result, 0) ==>
        ok && Towards(Now(), g, t) && (forall i: nat :: i < |args| ==> Covered(f.params[i], Now()))
        && (f.receiver.Some? && receiver.Some? ==> Covered(f.receiver.value, Now()))
        && (expectedReturn.Some? && ResultIsGeneric(f) ==> Covered(f.result, Now()))
    {
      ghost var early := Early(f, args, receiver, expectedReturn, g);
      hide Extends, Unified, CheckedAs, Covered, AllSuit, Instantiation, UnifySpec, ReceiverSuits, ResultSuits, ResultIsGeneric, Towards, Resolvable, Early, AllGeneric, Settled;
      ghost var start := Now();
      actuals := [];
      ok := UnifyReceiver(f, receiver, g, t);
      if !ok { return; }
      ghost var a := Now();
      var waiting;
      ok, waiting, actuals := FirstRounds(f, args, g, t, early);
      ghost var b := Now();
      ExtendsTrans(decls, constraints, start, a, b);
      if !ok { return; }
      AllSettled(f, args, actuals, waiting);
      ok := UnifyResult(f, expectedReturn, g, t);
      ghost var c := Now();
      ExtendsTrans(decls, constraints, start, b, c);
      if !ok { return; }
      KeepSettled(f, args, waiting, actuals, b, c);
      CoverageStays(decls, constraints, f.params, b, c);
      if f.receiver.Some? { ChainedCoverage(decls, constraints, f.receiver.value, a, a, b, c); }
      EarlyInferred(f, args, receiver, expectedReturn, waiting, g, t, c);
      ok, actuals := SecondRounds(f, args, waiting, actuals, g, t, early);
      ExtendsTrans(decls, constraints, start, c, Now());
      if f.receiver.Some? { ChainedCoverage(decls, constraints, f.receiver.value, a, b, c, Now()); }
      CoverageStays(decls, constraints, [f.result], c, Now());
      assert [f.result][0] == f.result;
      if ok { AllSettled(f, args, actuals, []); }
    }

    lemma AllSettled(f: Callee, args: seq<Arg>, actuals: seq<Type>, waiting: seq<nat>)
      requires |actuals| == |args| <= |f.params| && forall i: nat :: i < |args| && i !in waiting ==> Settled(f, args, actuals, i)
      ensures forall i: nat :: i < |args| && i !in waiting ==> Unified(decls, constraints, f.params[i], actuals[i], Now()) && CheckedAs(args[i], actuals[i])
    {
      hide Unified, CheckedAs;
      forall i: nat | i < |args| && i !in waiting ensures Unified(decls, constraints, f.params[i], actuals[i], Now()) && CheckedAs(args[i], actuals[i]) {
        assert Settled(f, args, actuals, i);
      }
    }

    method UnifyReceiver(f: Callee, receiver: Option<Type>, ghost g: Params, ghost t: Params) returns (ok: bool)
      modifies this`typeParams, this`inferred
      ensures Extends(decls, constraints, old(Now()), Now())
      ensures Instantiation(decls, constraints, t) && Towards(old(Now()), g, t) && ReceiverSuits(decls, f, receiver, g, t) ==>
        ok && Towards(Now(), g, t) && (f.receiver.Some? && receiver.Some? ==> Covered(f.receiver.value, Now()))
    {
      hide UnifySpec, Extends, Towards, Covered, Resolvable, Instantiation, Ordinary, Resolve;
      UnifyNothing(decls, constraints, Now());
      if f.receiver.None? || receiver.None? { return true; }
      var spec, actual := f.receiver.value, receiver.value;
      UnifyExtends(decls, constraints, Now(), spec, actual, 0);
      if Instantiation(decls, constraints, t) && Towards(Now(), g, t) && ReceiverSuits(decls, f, receiver, g, t) {
        UnifyComplete(decls, constraints, Now(), spec, actual, 0, g, t);
      }
      ok := UnifyGenericSpec(spec, actual, 0);
    }

    // The type expected of the call, when its result is generic.
    method UnifyResult(f: Callee, expectedReturn: Option<Type>, ghost g: Params, ghost t: Params) returns (ok: bool)
      modifies this`typeParams, this`inferred
      ensures Extends(decls, constraints, old(Now()), Now())
      ensures expectedReturn.None? || !ResultIsGeneric(f) ==> ok && Now() == old(Now())
      ensures Instantiation(decls, constraints, t) && Towards(old(Now()), g, t) && ResultSuits(decls, f, expectedReturn, t) && Resolvable(decls, g, t, f.result, 0) ==>
        ok && Towards(Now(), g, t) && (expectedReturn.Some? && ResultIsGeneric(f) ==> Covered(f.result, Now()))
    {
      hide UnifySpec, Extends, Towards, Covered, Resolvable, Instantiation, Ordinary, Resolve, ResultIsGeneric, Compatible;
      UnifyNothing(decls, constraints, Now());
      if expectedReturn.None? || !ResultIsGeneric(f) { return true; }
      UnifyExtends(decls, constraints, Now(), f.result, expectedReturn.value, 0);
      if Instantiation(decls, constraints, t) && Towards(Now(), g, t) && ResultSuits(decls, f, expectedReturn, t) && Resolvable(decls, g, t, f.result, 0) {
        UnifyComplete(decls, constraints, Now(), f.result, expectedReturn.value, 0, g, t);
      }
      ok := UnifyGenericSpec(f.result, expectedReturn.value, 0);
    }

    lemma KeepSettled(f: Callee, args: seq<Arg>, waiting: seq<nat>, actuals: seq<Type>, b: State, c: State)
      requires |actuals| == |args| <= |f.params| && Extends(decls, constraints, b, c) && c == Now()
      requires forall i: nat :: i < |args| && i !in waiting ==> Unified(decls, constraints, f.params[i], actuals[i], b) && CheckedAs(args[i], actuals[i])
      ensures forall i: nat :: i < |args| && i !in waiting ==> Settled(f, args, actuals, i)
    {
      hide Extends, Unified, CheckedAs;
      forall i: nat | i < |args| && i !in waiting ensures Settled(f, args, actuals, i) {
        UnifiedStays(decls, constraints, f.params[i], actuals[i], b, c);
      }
    }

    // Every type parameter must have been inferred; the result type and the type arguments follow.
    method Conclude(f: Callee, expectedReturn: Option<Type>) returns (r: Option<Match>)
      requires forall p :: p in f.typeParams ==> p.name in typeParams
      ensures r.Some? ==> Concluded(decls, f, r.value, Now())
      ensures (forall p :: p in f.typeParams ==> p.name in inferred)
              && Resolve(decls, typeParams, f.result, 0).Some?
              && (expectedReturn.Some? && ResultIsGeneric(f) ==> Compatible(expectedReturn.value, Resolve(decls, typeParams, f.result, 0).value))
              ==> r.Some?
    {
      hide Resolve, Compatible, ResultIsGeneric;
      var arguments: seq<Type> := [];
      for i := 0 to |f.typeParams|
        invariant |arguments| == i
        invariant forall k :: 0 <= k < i ==> f.typeParams[k].name in inferred && f.typeParams[k].name in typeParams && arguments[k] == typeParams[f.typeParams[k].name]
      {
        if f.typeParams[i].name !in inferred { return None; }
        assert f.typeParams[i] in f.typeParams;
        arguments := arguments + [typeParams[f.typeParams[i].name]];
      }
      var rt := Resolve(decls, typeParams, f.result, 0);
      if rt.None? { return None; }
      if expectedReturn.Some? && ResultIsGeneric(f) && !Compatible(expectedReturn.value, rt.value) { return None; }
      r := Some(Match(rt.value, arguments));
    }

    lemma EverythingInferred(f: Callee, args: seq<Arg>, receiver: Option<Type>, expected: Option<Type>, fin: State, t: Params, g: Params)
      requires WellTyped(decls, f, args, receiver, expected, t) && g == Scope(decls, f) && Towards(fin, g, t)
      requires |args| <= |f.params| && forall i: nat :: i < |args| ==> Covered(f.params[i], fin)
      requires f.receiver.Some? && receiver.Some? ==> Covered(f.receiver.value, fin)
      requires expected.Some? && ResultIsGeneric(f) ==> Covered(f.result, fin)
      requires forall p :: p in f.typeParams ==> p.name in fin.params
      ensures forall p :: p in f.typeParams ==> p.name in fin.inferred && p.name in t && fin.params[p.name] == t[p.name]
      ensures Resolve(decls, fin.params, f.result, 0).Some?
      ensures expected.Some? && ResultIsGeneric(f) ==> Compatible(expected.value, Resolve(decls, fin.params, f.result, 0).value)
    {
      hide Suits, Instantiation, ReceiverSuits, Mentioned, Resolve, Compatible, ResultIsGeneric;
      assert Between(fin.params, g, t);
      if expected.Some? && ResultIsGeneric(f) { InferredIsFinal(decls, g, t, f.result, fin); }
    }

    // Before the waiting arguments are checked, everything mentioned elsewhere has been inferred.
    lemma EarlyInferred(f: Callee, args: seq<Arg>, receiver: Option<Type>, expected: Option<Type>, waiting: seq<nat>, g: Params, t: Params, st: State)
      requires |args| <= |f.params| && forall i :: i in waiting ==> i < |args| && args[i].kind == FunctionName(false)
      ensures Towards(st, g, t)
              && (forall i: nat :: i < |args| && i !in waiting ==> Covered(f.params[i], st))
              && (f.receiver.Some? && receiver.Some? ==> Covered(f.receiver.value, st))
              && (expected.Some? && ResultIsGeneric(f) ==> Covered(f.result, st))
              ==> Early(f, args, receiver, expected, g) <= st.inferred
    {
      hide Mentioned, ResultIsGeneric;
    }
  }

  datatype Match = Match(result: Type, arguments: seq<Type>)

  // The result type and the recorded type arguments are what the substitution makes them.
  ghost predicate Concluded(d: Decls, f: Callee, m: Match, fin: State) {
    && Resolve(d, fin.params, f.result, 0) == Some(m.result)
    && |m.arguments| == |f.typeParams|
    && forall i :: 0 <= i < |f.typeParams| ==>
      f.typeParams[i].name in fin.inferred && f.typeParams[i].name in fin.params && m.arguments[i] == fin.params[f.typeParams[i].name]
  }

  // Every argument was unified with its parameter under bindings that meet their constraints and
  // that nothing changed afterwards.
  ghost predicate Matched(d: Decls, f: Callee, args: seq<Arg>, m: Match, fin: State, actuals: seq<Type>) {
    var cs := Limits(Scope(d, f));
    && f.minArgs <= |args| <= |f.params| && |actuals| == |args|
    && Extends(d, cs, State(Scope(d, f), {}), fin)
    && (forall i :: 0 <= i < |args| ==> Unified(d, cs, f.params[i], actuals[i], fin) && CheckedAs(args[i], actuals[i]))
    && Concluded(d, f, m, fin)
  }

  // Under the substitution the parameter's type is the argument's, exactly when the struct names
  // agree.
  ghost predicate StandsUnder(d: Decls, p: Params, spec: Spec, actual: Type) {
    Unshadowed(p.Keys) && Avoids(actual, p.Keys) && WellFormed(d, actual) ==>
      (Resolve(d, p, spec, 0) == Some(actual) <==> Exact(p.Keys, spec, actual))
  }

  // What was inferred for a parameter meets its constraint.
  lemma ArgumentsFit(d: Decls, f: Callee, args: seq<Arg>, m: Match, fin: State, actuals: seq<Type>)
    requires Matched(d, f, args, m, fin, actuals)
    ensures forall i: nat :: LastOfName(f.typeParams, i) ==> d.satisfies(m.arguments[i], f.typeParams[i].constraint)
  {
    hide Unified, CheckedAs, Scope, Limits, Resolve;
    ScopeExactly(d, f);
  }

  // fn apply[T](x: T, g: fn(T) -> T) -> T, called with an Int and the name of an overloaded function: the
  // first argument settles T, and the name is then checked as fn(Int) -> Int.
  const APPLY: Callee := Callee([Param("T", "")], None, [Variable("T"), Func([Variable("T")], Variable("T"))], 2, Variable("T"))

  const INT: Type := Scalar("Int")

  function ApplyArgs(): seq<Arg> { [Arg(Plain, (e: Option<Type>) => Some(INT)), Arg(FunctionName(false), (e: Option<Type>) => e)] }

  lemma ApplyResolves(d: Decls, q: Params, ty: Type)
    requires d.maxDepth >= 1 && q == map["T" := ty]
    ensures Resolve(d, q, Variable("T"), 0) == Some(ty)
    ensures Resolve(d, q, APPLY.params[1], 0) == Some(Function([ty], ty))
  {
    assert Resolve(d, q, Variable("T"), 1) == Some(ty);
    assert ResolveAll(d, q, [Variable("T")], 1).value == [ty];
  }

  lemma ApplyIsWellTyped(d: Decls)
    requires d.maxDepth >= 1 && d.satisfies(INT, "")
    ensures WellTyped(d, APPLY, ApplyArgs(), None, None, map["T" := INT])
  {
    var g, t: Params := Scope(d, APPLY), map["T" := INT];
    ApplyScope(d);
    ApplyResolves(d, t, INT);
    forall q | Between(q, g, t) ensures Resolve(d, q, Variable("T"), 0).Some? && Resolve(d, q, APPLY.params[1], 0).Some? {
      assert q == map["T" := q["T"]];
      ApplyResolves(d, q, q["T"]);
    }
    hide Resolve, Instantiation;
    assert Mentioned(APPLY.params[0], "T");
    assert MentionedEarly(APPLY, ApplyArgs(), None, None, "T") by { assert ApplyArgs()[0].kind != FunctionName(false); }
    var early := Early(APPLY, ApplyArgs(), None, None, g);
    assert "T" in early;
    hide Early, MentionedEarly, Mentioned;
    assert Suits(d, ApplyArgs()[0], APPLY.params[0], g, t, early);
    assert Suits(d, ApplyArgs()[1], APPLY.params[1], g, t, early) by { assert MentionsOnly(APPLY.params[1], g, early); }
    hide Suits;
  }

  lemma ApplyScope(d: Decls)
    requires d.satisfies(INT, "")
    ensures Scope(d, APPLY) == map["T" := Generic("T", "")]
    ensures Instantiation(d, Limits(Scope(d, APPLY)), map["T" := INT])
  {
    assert APPLY.typeParams[..0] == [];
    assert Declare([]) == map[];
  }

  method MatchApply(d: Decls) returns (r: Option<Match>)
    requires d.maxDepth >= 1 && d.satisfies(INT, "")
    ensures r == Some(Match(INT, [INT]))
  {
    ApplyIsWellTyped(d);
    hide WellTyped, Matched, StandsUnder, Scope;
    var checker := new Checker(d);
    ghost var fin, actuals;
    r, fin, actuals := checker.MatchFunctionCall(APPLY, ApplyArgs(), None, None, map["T" := INT]);
    ApplyConcludes(d, r.value, fin, actuals);
  }

  lemma ApplyConcludes(d: Decls, m: Match, fin: State, actuals: seq<Type>)
    requires Matched(d, APPLY, ApplyArgs(), m, fin, actuals) && m.arguments[0] == INT
    ensures m == Match(INT, [INT])
  {}

  lemma StartsTowards(st: State, g: Params, t: Params)
    requires st == State(g, {})
    ensures g.Keys == t.Keys ==> Towards(st, g, t)
  {}

  lemma ScopeDeclares(d: Decls, cs: Constraints, f: Callee, fin: State)
    requires Extends(d, cs, State(Scope(d, f), {}), fin)
    ensures forall p :: p in f.typeParams ==> p.name in fin.params
  {}

  lemma ChainedCoverage(d: Decls, cs: Constraints, spec: Spec, a: State, b: State, c: State, e: State)
    requires Extends(d, cs, a, b) && Extends(d, cs, b, c) && Extends(d, cs, c, e)
    ensures Covered(spec, a) ==> Covered(spec, e)
  {
    ExtendsTrans(d, cs, a, b, c);
    ExtendsTrans(d, cs, a, c, e);
    CoverageStays(d, cs, [spec], a, e);
    assert [spec][0] == spec;
  }

  lemma UnifyNothing(d: Decls, cs: Constraints, st: State)
    ensures Extends(d, cs, st, st)
  {}

  lemma MoreInferred(d: Decls, cs: Constraints, a: State, b: State)
    requires Extends(d, cs, a, b)
    ensures a.inferred <= b.inferred
  {}

  lemma CoverageStays(d: Decls, cs: Constraints, specs: seq<Spec>, a: State, b: State)
    requires Extends(d, cs, a, b)
    ensures forall i :: 0 <= i < |specs| && Covered(specs[i], a) ==> Covered(specs[i], b)
  {}

  lemma BothResolve(d: Decls, g: Params, t: Params, spec: Spec, st: State)
    requires Resolvable(d, g, t, spec, 0) && Towards(st, g, t)
    ensures Resolve(d, t, spec, 0).Some? && Resolve(d, st.params, spec, 0).Some?
  {
    assert Between(t, g, t) && Between(st.params, g, t);
  }
}
