// Generic inference of the checker: one-sided unification of parameter specs with argument types.
module Unify {
  import opened Wrappers
  import opened TypeSpecs

  datatype Con = Array | Optional | Channel | Thread | Set | Actor | Shared | Result | Map

  datatype Type =
    | Scalar(name: string)
    | Unknown
    | Generic(name: string, constraint: string)
    | Apply(con: Con, args: seq<Type>)
    | Struct(name: string, args: seq<Type>)
    | Function(params: seq<Type>, result: Type)

  datatype Param = Param(name: string, constraint: string)

  // The declarations in scope. Which types meet a constraint is a parameter.
  datatype Decls = Decls(structs: map<string, seq<Param>>, enums: set<string>, maxDepth: nat, satisfies: (Type, string) -> bool)

  type Params = map<string, Type>

  const BUILTIN: set<string> := {
    "Void", "Nil", "Int", "UInt8", "UInt16", "UInt32", "UInt64", "Float", "Bool", "String", "Bytes", "Json", "WebSocket",
    "Regex", "Random", "SQLite", "TcpSocket", "TcpListener", "UdpSocket", "FFILibrary", "FFISymbol", "FFIBuffer"
  }

  function Constructor(n: string): Option<Con> {
    if n == "Array" then Some(Array) else if n == "Option" then Some(Optional) else if n == "Channel" then Some(Channel)
    else if n == "Thread" then Some(Thread) else if n == "Set" then Some(Set) else if n == "Actor" then Some(Actor)
    else if n == "Shared" then Some(Shared) else if n == "Result" then Some(Result) else if n == "Map" then Some(Map) else None
  }

  function Arity(c: Con): nat { if c == Result || c == Map then 2 else 1 }

  // ---- resolving a spec --------------------------------------------------------------------------

  function Resolve(d: Decls, params: Params, s: Spec, depth: nat): Option<Type>
    decreases s
  {
    if depth > d.maxDepth then None
    else
      match s
      case Func(ps, r) =>
        (match (ResolveAll(d, params, ps, depth + 1), Resolve(d, params, r, depth + 1))
         case (Some(ts), Some(t)) => Some(Function(ts, t))
         case _ => None)
      case Named(n, ps) =>
        if ps == [] && n in BUILTIN then Some(Scalar(n))
        else if ps == [] && n == "Array" then Some(Apply(Array, [Unknown]))
        else if ps == [] && n in params then Some(params[n])
        else
          match ResolveAll(d, params, ps, depth + 1)
          case None => if n == "TaskGroup" then Some(Scalar(n)) else None
          case Some(ts) => Head(d, n, ts)
  }

  // The type a name makes of its arguments.
  function Head(d: Decls, n: string, ts: seq<Type>): Option<Type> {
    if Constructor(n).Some? && |ts| == Arity(Constructor(n).value) then Some(Apply(Constructor(n).value, ts))
    else if n == "TaskGroup" then Some(Scalar(n))
    else if n in d.structs then
      if |ts| == |d.structs[n]| && Fits(d, d.structs[n], ts) then Some(Struct(n, ts)) else None
    else if ts == [] && n in d.enums then Some(Scalar(n))
    else None
  }

  // Every argument meets its parameter's constraint.
  predicate Fits(d: Decls, ps: seq<Param>, ts: seq<Type>)
    requires |ps| == |ts|
  {
    forall i :: 0 <= i < |ps| ==> d.satisfies(ts[i], ps[i].constraint)
  }

  function ResolveAll(d: Decls, params: Params, ss: seq<Spec>, depth: nat): (r: Option<seq<Type>>)
    ensures r.Some? ==> |r.value| == |ss|
    ensures r.Some? <==> forall i :: 0 <= i < |ss| ==> Resolve(d, params, ss[i], depth).Some?
    ensures r.Some? ==> forall i :: 0 <= i < |ss| ==> Resolve(d, params, ss[i], depth) == Some(r.value[i])
    decreases ss
  {
    if ss == [] then Some([])
    else
      match (Resolve(d, params, ss[0], depth), ResolveAll(d, params, ss[1..], depth))
      case (Some(t), Some(ts)) => Some([t] + ts)
      case _ => None
  }

  // ---- comparing types ----------------------------------------------------------------------------

  const MAX_COMPARE: nat := 128

  predicate TypeEqual(a: Type, b: Type, d: nat) {
    && d <= MAX_COMPARE
    && match (a, b)
       case (Scalar(m), Scalar(n)) => m == n
       case (Generic(m, c), Generic(n, e)) => m == n && c == e
       case (Apply(c, xs), Apply(e, ys)) => c == e && AllEqual(xs, ys, d + 1)
       case (Struct(m, xs), Struct(n, ys)) => m == n && AllEqual(xs, ys, d + 1)
       case (Function(xs, r), Function(ys, q)) => TypeEqual(r, q, d + 1) && AllEqual(xs, ys, d + 1)
       case _ => false
  }

  predicate AllEqual(xs: seq<Type>, ys: seq<Type>, d: nat) {
    |xs| == |ys| && forall i :: 0 <= i < |xs| ==> TypeEqual(xs[i], ys[i], d)
  }

  predicate Compatible(a: Type, b: Type) {
    TypeEqual(a, b, 0)
    || (a.Apply? && a.con == Array && b.Apply? && b.con == Array && (a.args == [Unknown] || b.args == [Unknown]))
  }

  function Arguments(t: Type): seq<Type> {
    match t
    case Apply(_, ts) => ts
    case Struct(_, ts) => ts
    case Function(ts, r) => ts + [r]
    case _ => []
  }

  // The kinds agree; struct types of different declarations have the same kind.
  predicate SameKind(a: Type, b: Type) {
    match a
    case Apply(c, _) => b.Apply? && b.con == c
    case Struct(_, _) => b.Struct?
    case Function(_, _) => b.Function?
    case Scalar(_) => b.Scalar?
    case Generic(_, _) => b.Generic?
    case Unknown => b.Unknown?
  }

  lemma {:induction false} EqualTypes(a: Type, b: Type, d: nat)
    requires TypeEqual(a, b, d)
    ensures a == b
    decreases a
  {
    forall i | 0 <= i < |Arguments(a)| ensures Arguments(a)[i] == Arguments(b)[i] {
      if a.Function? && i == |a.params| { EqualTypes(a.result, b.result, d + 1); } else { EqualTypes(Arguments(a)[i], Arguments(b)[i], d + 1); }
    }
    assert Arguments(a) == Arguments(b);
    if a.Function? { assert a.params == Arguments(a)[..|a.params|] && b.params == Arguments(b)[..|b.params|]; }
  }

  // A complete type of bounded depth.
  predicate Known(t: Type, k: nat) {
    && !t.Unknown?
    && (t.Function? ==> k > 0 && Known(t.result, k - 1) && forall x :: x in t.params ==> Known(x, k - 1))
    && (t.Apply? || t.Struct? ==> forall x :: x in t.args ==> k > 0 && Known(x, k - 1))
  }

  lemma {:induction false} KnownEqualsItself(t: Type, d: nat)
    requires d <= MAX_COMPARE && Known(t, MAX_COMPARE - d)
    ensures TypeEqual(t, t, d)
    decreases t
  {
    match t
    case Apply(_, ts) => forall i | 0 <= i < |ts| ensures TypeEqual(ts[i], ts[i], d + 1) { assert ts[i] in ts; KnownEqualsItself(ts[i], d + 1); }
    case Struct(_, ts) => forall i | 0 <= i < |ts| ensures TypeEqual(ts[i], ts[i], d + 1) { assert ts[i] in ts; KnownEqualsItself(ts[i], d + 1); }
    case Function(ts, r) =>
      forall i | 0 <= i < |ts| ensures TypeEqual(ts[i], ts[i], d + 1) { assert ts[i] in ts; KnownEqualsItself(ts[i], d + 1); }
      KnownEqualsItself(r, d + 1);
    case _ =>
  }

  // Types compare equal exactly when they are the same and complete, down to the depth compared.
  lemma {:induction false} EqualExactly(a: Type, b: Type, d: nat)
    requires d <= MAX_COMPARE
    ensures TypeEqual(a, b, d) <==> a == b && Known(a, MAX_COMPARE - d)
  {
    if TypeEqual(a, b, d) {
      EqualTypes(a, b, d);
      EqualIsKnown(a, d);
    }
    if a == b && Known(a, MAX_COMPARE - d) { KnownEqualsItself(a, d); }
  }

  lemma {:induction false} EqualIsKnown(t: Type, d: nat)
    requires TypeEqual(t, t, d) && d <= MAX_COMPARE
    ensures Known(t, MAX_COMPARE - d)
    decreases t
  {
    match t
    case Apply(_, ts) => forall x | x in ts ensures d < MAX_COMPARE && Known(x, MAX_COMPARE - d - 1) { EqualIsKnown(x, d + 1); }
    case Struct(_, ts) => forall x | x in ts ensures d < MAX_COMPARE && Known(x, MAX_COMPARE - d - 1) { EqualIsKnown(x, d + 1); }
    case Function(ts, r) =>
      EqualIsKnown(r, d + 1);
      forall x | x in ts ensures Known(x, MAX_COMPARE - d - 1) { EqualIsKnown(x, d + 1); }
    case _ =>
  }

  // An array of unknown elements fits every array; otherwise types fit when they are equal.
  lemma CompatibleExactly(a: Type, b: Type)
    ensures Compatible(a, b) <==>
      (a == b && Known(a, 128))
      || (a.Apply? && b.Apply? && a.con == b.con == Array && (a == Apply(Array, [Unknown]) || b == Apply(Array, [Unknown])))
  {
    EqualExactly(a, b, 0);
  }

  // ---- names of types ---------------------------------------------------------------------------------

  // The constructors, with the number of types each takes.
  const CONSTRUCTORS: set<(string, Con, nat)> := {
    ("Array", Array, 1), ("Option", Optional, 1), ("Channel", Channel, 1), ("Thread", Thread, 1), ("Set", Set, 1), ("Actor", Actor, 1),
    ("Shared", Shared, 1), ("Result", Result, 2), ("Map", Map, 2)
  }

  lemma ConstructorsExactly(n: string, c: Con)
    ensures Constructor(n) == Some(c) <==> (n, c, Arity(c)) in CONSTRUCTORS
    ensures forall m, k :: (m, c, k) in CONSTRUCTORS ==> k == Arity(c)
  {}

  // The type a name makes of types: a constructor's with as many as it takes, a declared struct's with as
  // many as its parameters, each meeting its parameter's constraint, or a declared enum's with none.
  lemma HeadExactly(d: Decls, n: string, ts: seq<Type>, t: Type)
    requires n != "TaskGroup" && forall c :: Constructor(n) == Some(c) ==> n !in d.structs && n !in d.enums
    requires n in d.structs ==> n !in d.enums
    ensures Head(d, n, ts) == Some(t) <==>
      || (t.Apply? && (n, t.con, |ts|) in CONSTRUCTORS && t.args == ts)
      || (n in d.structs && t == Struct(n, ts) && |ts| == |d.structs[n]| && forall i :: 0 <= i < |ts| ==> d.satisfies(ts[i], d.structs[n][i].constraint))
      || (n in d.enums && ts == [] && t == Scalar(n))
  {
    if t.Apply? { ConstructorsExactly(n, t.con); }
  }

  // ---- unification --------------------------------------------------------------------------------

  // What inference has so far: a type for every parameter (itself until inferred).
  datatype State = State(params: Params, inferred: set<string>)

  type Constraints = map<string, string>

  function ConstraintOf(cs: Constraints, n: string): string { if n in cs then cs[n] else "" }

  function UnifySpec(d: Decls, cs: Constraints, st: State, spec: Spec, actual: Type, depth: nat): (bool, State)
    decreases spec
  {
    if depth > d.maxDepth then (false, st)
    else
      match spec
      case Func(ps, r) =>
        if !actual.Function? || |ps| != |actual.params| then (false, st)
        else
          var front := UnifyAll(d, cs, st, ps, actual.params, depth + 1);
          if front.0 then UnifySpec(d, cs, front.1, r, actual.result, depth + 1) else front
      case Named(n, ps) =>
        if ps == [] then UnifyLeaf(d, cs, st, n, actual, depth)
        else
          var shape := Resolve(d, st.params, spec, depth);
          if shape.None? || !SameKind(shape.value, actual) || |ps| != |Arguments(actual)| then (false, st)
          else UnifyAll(d, cs, st, ps, Arguments(actual), depth + 1)
  }

  function UnifyLeaf(d: Decls, cs: Constraints, st: State, n: string, actual: Type, depth: nat): (bool, State) {
    if n in st.params then
      if actual.Generic? && actual.name == n then (true, st)
      else if n in st.inferred then (TypeEqual(st.params[n], actual, 0), st)
      else if !d.satisfies(actual, ConstraintOf(cs, n)) then (false, st)
      else (true, State(st.params[n := actual], st.inferred + {n}))
    else
      var expected := Resolve(d, st.params, Variable(n), depth);
      (expected.Some? && Compatible(expected.value, actual), st)
  }

  function UnifyAll(d: Decls, cs: Constraints, st: State, specs: seq<Spec>, actuals: seq<Type>, depth: nat): (bool, State)
    requires |specs| == |actuals|
    decreases specs
  {
    if specs == [] then (true, st)
    else
      var first := UnifySpec(d, cs, st, specs[0], actuals[0], depth);
      if first.0 then UnifyAll(d, cs, first.1, specs[1..], actuals[1..], depth) else first
  }

  // ---- what a step keeps ----------------------------------------------------------------------------

  // Inference only ever adds bindings, each meeting its constraint.
  ghost predicate Extends(d: Decls, cs: Constraints, a: State, b: State) {
    && a.params.Keys == b.params.Keys && a.inferred <= b.inferred
    && (forall n :: n in a.params && (n in a.inferred || n !in b.inferred) ==> b.params[n] == a.params[n])
    && (forall n :: n in b.inferred - a.inferred ==> n in b.params && d.satisfies(b.params[n], ConstraintOf(cs, n)))
  }

  lemma ExtendsTrans(d: Decls, cs: Constraints, a: State, b: State, c: State)
    requires Extends(d, cs, a, b) && Extends(d, cs, b, c)
    ensures Extends(d, cs, a, c)
  {
    assert forall n :: n in c.inferred - a.inferred ==> n in c.inferred - b.inferred || n in b.inferred - a.inferred;
  }

  lemma {:induction false} UnifyExtends(d: Decls, cs: Constraints, st: State, spec: Spec, actual: Type, depth: nat)
    ensures Extends(d, cs, st, UnifySpec(d, cs, st, spec, actual, depth).1)
    decreases spec
  {
    hide Resolve, TypeEqual;
    match spec
    case Func(ps, r) =>
      if depth <= d.maxDepth && actual.Function? && |ps| == |actual.params| {
        UnifyAllExtends(d, cs, st, ps, actual.params, depth + 1);
        var front := UnifyAll(d, cs, st, ps, actual.params, depth + 1);
        UnifyExtends(d, cs, front.1, r, actual.result, depth + 1);
        if front.0 { ExtendsTrans(d, cs, st, front.1, UnifySpec(d, cs, front.1, r, actual.result, depth + 1).1); }
      }
    case Named(n, ps) =>
      if ps != [] && |ps| == |Arguments(actual)| { UnifyAllExtends(d, cs, st, ps, Arguments(actual), depth + 1); }
  }

  lemma {:induction false} UnifyAllExtends(d: Decls, cs: Constraints, st: State, specs: seq<Spec>, actuals: seq<Type>, depth: nat)
    requires |specs| == |actuals|
    ensures Extends(d, cs, st, UnifyAll(d, cs, st, specs, actuals, depth).1)
    decreases specs
  {
    hide UnifySpec;
    if specs != [] {
      var first := UnifySpec(d, cs, st, specs[0], actuals[0], depth);
      UnifyExtends(d, cs, st, specs[0], actuals[0], depth);
      if first.0 {
        UnifyAllExtends(d, cs, first.1, specs[1..], actuals[1..], depth);
        ExtendsTrans(d, cs, st, first.1, UnifyAll(d, cs, first.1, specs[1..], actuals[1..], depth).1);
      }
    }
  }

  // ---- soundness -------------------------------------------------------------------------------------

  // A type of the program: declared structs with fitting arguments.
  ghost predicate WellFormed(d: Decls, t: Type) {
    match t
    case Apply(c, ts) => |ts| == Arity(c) && forall x :: x in ts ==> WellFormed(d, x)
    case Struct(n, ts) => n in d.structs && |ts| == |d.structs[n]| && Fits(d, d.structs[n], ts) && forall x :: x in ts ==> WellFormed(d, x)
    case Function(ts, r) => WellFormed(d, r) && forall x :: x in ts ==> WellFormed(d, x)
    case _ => true
  }

  // The type mentions no type variable of these names.
  predicate Avoids(t: Type, names: set<string>) {
    match t
    case Generic(n, _) => n !in names
    case Apply(_, ts) => forall x :: x in ts ==> Avoids(x, names)
    case Struct(_, ts) => forall x :: x in ts ==> Avoids(x, names)
    case Function(ts, r) => Avoids(r, names) && forall x :: x in ts ==> Avoids(x, names)
    case _ => true
  }

  // No type parameter hides a name that resolution looks up first.
  predicate Unshadowed(names: set<string>) { names !! BUILTIN && "Array" !in names }

  // The test unification leaves out: struct names agree with the spec's, and a bare Array is only
  // given an array of unknown elements.
  ghost predicate Exact(names: set<string>, spec: Spec, actual: Type)
    decreases spec
  {
    match spec
    case Func(ps, r) =>
      && actual.Function? && |ps| == |actual.params| && Exact(names, r, actual.result)
      && forall i :: 0 <= i < |ps| ==> Exact(names, ps[i], actual.params[i])
    case Named(n, ps) =>
      if ps == [] then (n == "Array" ==> actual == Apply(Array, [Unknown])) else ExactArguments(names, n, ps, actual)
  }

  ghost predicate ExactArguments(names: set<string>, n: string, ps: seq<Spec>, actual: Type)
    decreases ps, 1
  {
    && (actual.Struct? ==> actual.name == n) && |ps| == |Arguments(actual)|
    && forall i :: 0 <= i < |ps| ==> Exact(names, ps[i], Arguments(actual)[i])
  }

  // Types that agree with what was inferred, now or later.
  ghost predicate Agrees(p: Params, st: State) {
    p.Keys == st.params.Keys && forall n :: n in st.inferred && n in p ==> p[n] == st.params[n]
  }

  ghost predicate Sound(d: Decls, p: Params, names: set<string>, spec: Spec, actual: Type, depth: nat) {
    Resolve(d, p, spec, depth) == Some(actual) <==> Exact(names, spec, actual)
  }

  lemma {:induction false} UnifySound(d: Decls, cs: Constraints, st: State, spec: Spec, actual: Type, depth: nat, p: Params)
    requires UnifySpec(d, cs, st, spec, actual, depth).0 && Agrees(p, UnifySpec(d, cs, st, spec, actual, depth).1)
    requires Unshadowed(p.Keys) && Avoids(actual, p.Keys) && WellFormed(d, actual)
    ensures Sound(d, p, p.Keys, spec, actual, depth)
    decreases spec
  {
    hide Head, SameKind, BUILTIN;
    match spec
    case Func(ps, r) =>
      var front := UnifyAll(d, cs, st, ps, actual.params, depth + 1);
      var last := UnifySpec(d, cs, front.1, r, actual.result, depth + 1);
      UnifyExtends(d, cs, front.1, r, actual.result, depth + 1);
      assert Agrees(p, front.1);
      UnifyAllSound(d, cs, st, ps, actual.params, depth + 1, p);
      UnifySound(d, cs, front.1, r, actual.result, depth + 1, p);
      FunctionSound(d, p, ps, r, actual, depth);
    case Named(n, ps) =>
      if ps == [] {
        LeafSound(d, cs, st, n, actual, depth, p);
      } else {
        ArgumentsWellFormed(d, actual, p.Keys);
        UnifyAllSound(d, cs, st, ps, Arguments(actual), depth + 1, p);
        CompoundSound(d, p, st.params, n, ps, actual, depth);
      }
  }

  lemma ArgumentsWellFormed(d: Decls, t: Type, names: set<string>)
    requires WellFormed(d, t) && Avoids(t, names)
    ensures forall x :: x in Arguments(t) ==> WellFormed(d, x) && Avoids(x, names)
  {}

  lemma {:induction false} UnifyAllSound(d: Decls, cs: Constraints, st: State, specs: seq<Spec>, actuals: seq<Type>, depth: nat, p: Params)
    requires |specs| == |actuals|
    requires UnifyAll(d, cs, st, specs, actuals, depth).0 && Agrees(p, UnifyAll(d, cs, st, specs, actuals, depth).1)
    requires Unshadowed(p.Keys) && forall x :: x in actuals ==> Avoids(x, p.Keys) && WellFormed(d, x)
    ensures forall i :: 0 <= i < |specs| ==> Sound(d, p, p.Keys, specs[i], actuals[i], depth)
    decreases specs
  {
    hide UnifySpec, Sound, WellFormed, Avoids, Unshadowed;
    if specs != [] {
      var first := UnifySpec(d, cs, st, specs[0], actuals[0], depth);
      UnifyAllExtends(d, cs, first.1, specs[1..], actuals[1..], depth);
      UnifySound(d, cs, st, specs[0], actuals[0], depth, p);
      UnifyAllSound(d, cs, first.1, specs[1..], actuals[1..], depth, p);
      forall i | 0 <= i < |specs| ensures Sound(d, p, p.Keys, specs[i], actuals[i], depth) {
        if i > 0 { assert specs[i] == specs[1..][i - 1] && actuals[i] == actuals[1..][i - 1]; }
      }
    }
  }

  lemma FunctionSound(d: Decls, p: Params, ps: seq<Spec>, r: Spec, actual: Type, depth: nat)
    requires depth <= d.maxDepth && actual.Function? && |ps| == |actual.params|
    requires forall i :: 0 <= i < |ps| ==> Sound(d, p, p.Keys, ps[i], actual.params[i], depth + 1)
    requires Sound(d, p, p.Keys, r, actual.result, depth + 1)
    ensures Sound(d, p, p.Keys, Func(ps, r), actual, depth)
  {
    var resolved := ResolveAll(d, p, ps, depth + 1);
    if Exact(p.Keys, Func(ps, r), actual) {
      assert forall i :: 0 <= i < |ps| ==> Resolve(d, p, ps[i], depth + 1) == Some(actual.params[i]);
      assert resolved.value == actual.params;
    }
  }

  lemma LeafSound(d: Decls, cs: Constraints, st: State, n: string, actual: Type, depth: nat, p: Params)
    requires depth <= d.maxDepth && UnifyLeaf(d, cs, st, n, actual, depth).0 && Agrees(p, UnifyLeaf(d, cs, st, n, actual, depth).1)
    requires Unshadowed(p.Keys) && Avoids(actual, p.Keys)
    ensures Sound(d, p, p.Keys, Variable(n), actual, depth)
  {
    if n in st.params {
      if n in st.inferred { EqualTypes(st.params[n], actual, 0); }
      assert p[n] == actual;
    } else {
      var expected := Resolve(d, st.params, Variable(n), depth).value;
      assert ResolveAll(d, p, [], depth + 1) == ResolveAll(d, st.params, [], depth + 1) == Some([]);
      assert Resolve(d, p, Variable(n), depth) == Some(expected);
      if TypeEqual(expected, actual, 0) { EqualTypes(expected, actual, 0); }
    }
  }

  lemma CompoundSound(d: Decls, p: Params, q: Params, n: string, ps: seq<Spec>, actual: Type, depth: nat)
    requires depth <= d.maxDepth && ps != [] && |ps| == |Arguments(actual)| && WellFormed(d, actual)
    requires Resolve(d, q, Named(n, ps), depth).Some? && SameKind(Resolve(d, q, Named(n, ps), depth).value, actual)
    requires forall i :: 0 <= i < |ps| ==> Sound(d, p, p.Keys, ps[i], Arguments(actual)[i], depth + 1)
    ensures Sound(d, p, p.Keys, Named(n, ps), actual, depth)
  {
    hide WellFormed, Constructor;
    var ts := Arguments(actual);
    var resolved := ResolveAll(d, p, ps, depth + 1);
    HeadKind(d, q, n, ps, actual, depth);
    assert Exact(p.Keys, Named(n, ps), actual) == ExactArguments(p.Keys, n, ps, actual);
    if Exact(p.Keys, Named(n, ps), actual) {
      assert forall i :: 0 <= i < |ps| ==> Resolve(d, p, ps[i], depth + 1) == Some(ts[i]);
      assert resolved.value == ts;
    }
  }

  // The head of the spec makes the argument's type out of its arguments, unless they are structs of
  // different names.
  lemma HeadKind(d: Decls, q: Params, n: string, ps: seq<Spec>, actual: Type, depth: nat)
    requires depth <= d.maxDepth && ps != [] && |ps| == |Arguments(actual)| && WellFormed(d, actual)
    requires Resolve(d, q, Named(n, ps), depth).Some? && SameKind(Resolve(d, q, Named(n, ps), depth).value, actual)
    ensures actual.Apply? || actual.Struct?
    ensures Head(d, n, Arguments(actual)) == Some(actual) <==> (actual.Struct? ==> actual.name == n)
    ensures n != "TaskGroup"
  {}

  // Without the name test a box is accepted for a bag.
  lemma NamesAreNotCompared(sat: (Type, string) -> bool)
    requires sat(Scalar("Int"), "") && sat(Generic("T", ""), "")
    ensures var d := Decls(map["Box" := [Param("E", "")], "Bag" := [Param("E", "")]], {}, 128, sat);
      var st := State(map["T" := Generic("T", "")], {});
      var r := UnifySpec(d, map[], st, Named("Box", [Variable("T")]), Struct("Bag", [Scalar("Int")]), 0);
      r.0 && Resolve(d, r.1.params, Named("Box", [Variable("T")]), 0) == Some(Struct("Box", [Scalar("Int")]))
  {
    var d := Decls(map["Box" := [Param("E", "")], "Bag" := [Param("E", "")]], {}, 128, sat);
    var st := State(map["T" := Generic("T", "")], {});
    var bound := State(map["T" := Scalar("Int")], {"T"});
    assert Resolve(d, st.params, Variable("T"), 1) == Some(Generic("T", ""));
    assert ResolveAll(d, st.params, [Variable("T")], 1).value == [Generic("T", "")];
    assert [Variable("T")][1..] == [] && [Scalar("Int")][1..] == [];
    assert st.params["T" := Scalar("Int")] == bound.params && st.inferred + {"T"} == bound.inferred;
    assert UnifyLeaf(d, map[], st, "T", Scalar("Int"), 1) == (true, bound);
    assert UnifyAll(d, map[], st, [Variable("T")], [Scalar("Int")], 1) == (true, bound);
    assert Resolve(d, bound.params, Variable("T"), 1) == Some(Scalar("Int"));
    assert ResolveAll(d, bound.params, [Variable("T")], 1).value == [Scalar("Int")];
  }

  // ---- completeness ----------------------------------------------------------------------------------

  // Some parameters are already what `t` makes of them, the others are still themselves.
  ghost predicate Between(q: Params, g: Params, t: Params) {
    q.Keys == g.Keys == t.Keys && forall n :: n in q ==> q[n] == g[n] || q[n] == t[n]
  }

  // The signature resolves however many of its parameters are already inferred.
  ghost predicate Resolvable(d: Decls, g: Params, t: Params, spec: Spec, depth: nat) {
    forall q :: Between(q, g, t) ==> Resolve(d, q, spec, depth).Some?
  }

  // A task group is only written without arguments.
  ghost predicate Ordinary(spec: Spec) {
    match spec
    case Func(ps, r) => Ordinary(r) && forall p :: p in ps ==> Ordinary(p)
    case Named(n, ps) => (ps != [] ==> n != "TaskGroup") && forall p :: p in ps ==> Ordinary(p)
  }

  // An instantiation inference may find.
  ghost predicate Instantiation(d: Decls, cs: Constraints, t: Params) {
    Unshadowed(t.Keys) && forall n :: n in t ==> Known(t[n], MAX_COMPARE) && Avoids(t[n], t.Keys) && d.satisfies(t[n], ConstraintOf(cs, n))
  }

  // What inference has agrees with the instantiation.
  ghost predicate Towards(st: State, g: Params, t: Params) {
    && st.params.Keys == g.Keys == t.Keys
    && forall n :: n in t ==> st.params[n] == if n in st.inferred then t[n] else g[n]
  }

  predicate Mentioned(spec: Spec, n: string) { HasLeaf(spec, {n}) }

  // Every parameter the spec mentions has been inferred.
  ghost predicate Covered(spec: Spec, st: State) { forall n :: n in st.params && Mentioned(spec, n) ==> n in st.inferred }

  lemma {:induction false} UnifyComplete(d: Decls, cs: Constraints, st: State, spec: Spec, actual: Type, depth: nat, g: Params, t: Params)
    requires Instantiation(d, cs, t) && Towards(st, g, t) && Ordinary(spec) && Resolvable(d, g, t, spec, depth)
    requires Resolve(d, t, spec, depth) == Some(actual)
    ensures var r := UnifySpec(d, cs, st, spec, actual, depth);
      r.0 && Towards(r.1, g, t) && Covered(spec, r.1)
    decreases spec
  {
    hide Head, BUILTIN, Covered, Known, Avoids, Resolvable, Ordinary;
    match spec
    case Func(ps, r) =>
      FunctionResolves(d, g, t, ps, r, depth);
      UnifyAllComplete(d, cs, st, ps, actual.params, depth + 1, g, t);
      var front := UnifyAll(d, cs, st, ps, actual.params, depth + 1);
      UnifyComplete(d, cs, front.1, r, actual.result, depth + 1, g, t);
      var last := UnifySpec(d, cs, front.1, r, actual.result, depth + 1).1;
      UnifyExtends(d, cs, front.1, r, actual.result, depth + 1);
      StillCovered(d, cs, ps, front.1, last);
      AllCovered(Func(ps, r), last);
    case Named(n, ps) =>
      if ps == [] {
        LeafComplete(d, cs, st, n, actual, depth, g, t);
      } else {
        CompoundResolves(d, cs, st, g, t, n, ps, actual, depth);
        UnifyAllComplete(d, cs, st, ps, Arguments(actual), depth + 1, g, t);
        AllCovered(Named(n, ps), UnifyAll(d, cs, st, ps, Arguments(actual), depth + 1).1);
      }
  }

  lemma AllCovered(spec: Spec, st: State)
    requires spec.Named? ==> spec.params != []
    requires forall p :: p in spec.params ==> Covered(p, st)
    requires spec.Func? ==> Covered(spec.result, st)
    ensures Covered(spec, st)
  {}

  lemma StillCovered(d: Decls, cs: Constraints, ps: seq<Spec>, a: State, b: State)
    requires Extends(d, cs, a, b) && forall p :: p in ps ==> Covered(p, a)
    ensures forall p :: p in ps ==> Covered(p, b)
  {}

  lemma SelfBetween(g: Params, t: Params)
    requires g.Keys == t.Keys
    ensures Between(g, g, t)
  {}

  lemma FunctionResolves(d: Decls, g: Params, t: Params, ps: seq<Spec>, r: Spec, depth: nat)
    requires Resolvable(d, g, t, Func(ps, r), depth) && Ordinary(Func(ps, r)) && g.Keys == t.Keys
    ensures depth <= d.maxDepth
    ensures Resolvable(d, g, t, r, depth + 1) && Ordinary(r)
    ensures forall p :: p in ps ==> Resolvable(d, g, t, p, depth + 1) && Ordinary(p)
  {
    SelfBetween(g, t);
    forall q | Between(q, g, t) ensures Resolve(d, q, r, depth + 1).Some? && forall p :: p in ps ==> Resolve(d, q, p, depth + 1).Some? {
      assert Resolve(d, q, Func(ps, r), depth).Some?;
      assert ResolveAll(d, q, ps, depth + 1).Some?;
    }
  }

  lemma CompoundResolves(d: Decls, cs: Constraints, st: State, g: Params, t: Params, n: string, ps: seq<Spec>, actual: Type, depth: nat)
    requires Towards(st, g, t) && ps != []
    requires Ordinary(Named(n, ps)) && Resolvable(d, g, t, Named(n, ps), depth)
    requires Resolve(d, t, Named(n, ps), depth) == Some(actual)
    ensures depth <= d.maxDepth && |ps| == |Arguments(actual)|
    ensures Resolve(d, st.params, Named(n, ps), depth).Some? && SameKind(Resolve(d, st.params, Named(n, ps), depth).value, actual)
    ensures forall i :: 0 <= i < |ps| ==> Resolve(d, t, ps[i], depth + 1) == Some(Arguments(actual)[i])
    ensures forall p :: p in ps ==> Resolvable(d, g, t, p, depth + 1) && Ordinary(p)
  {
    assert Between(st.params, g, t);
    forall q | Between(q, g, t) ensures forall p :: p in ps ==> Resolve(d, q, p, depth + 1).Some? {
      assert Resolve(d, q, Named(n, ps), depth).Some?;
      assert ResolveAll(d, q, ps, depth + 1).Some?;
    }
  }

  lemma LeafComplete(d: Decls, cs: Constraints, st: State, n: string, actual: Type, depth: nat, g: Params, t: Params)
    requires Instantiation(d, cs, t) && Towards(st, g, t)
    requires Resolve(d, t, Variable(n), depth) == Some(actual)
    ensures depth <= d.maxDepth
    ensures var r := UnifyLeaf(d, cs, st, n, actual, depth);
      r.0 && Towards(r.1, g, t) && Covered(Variable(n), r.1)
  {
    hide Known;
    if n in t {
      assert actual == t[n];
      if n in st.inferred { KnownEqualsItself(t[n], 0); }
      assert Avoids(actual, t.Keys);
    } else {
      assert ResolveAll(d, t, [], depth + 1) == ResolveAll(d, st.params, [], depth + 1) == Some([]);
      assert Resolve(d, st.params, Variable(n), depth) == Some(actual);
      assert actual.Scalar? || actual == Apply(Array, [Unknown]) || actual == Struct(n, []);
      if actual == Struct(n, []) { assert AllEqual([], [], 1) && TypeEqual(actual, actual, 0); }
      if actual.Scalar? { assert TypeEqual(actual, actual, 0); }
    }
  }

  lemma {:induction false} UnifyAllComplete(d: Decls, cs: Constraints, st: State, specs: seq<Spec>, actuals: seq<Type>, depth: nat, g: Params, t: Params)
    requires |specs| == |actuals| && Instantiation(d, cs, t) && Towards(st, g, t)
    requires forall p :: p in specs ==> Ordinary(p) && Resolvable(d, g, t, p, depth)
    requires forall i :: 0 <= i < |specs| ==> Resolve(d, t, specs[i], depth) == Some(actuals[i])
    ensures var r := UnifyAll(d, cs, st, specs, actuals, depth);
      r.0 && Towards(r.1, g, t) && forall p :: p in specs ==> Covered(p, r.1)
    decreases specs
  {
    hide UnifySpec, Resolve, Covered, Resolvable, Ordinary, Towards, Instantiation;
    if specs != [] {
      var first := UnifySpec(d, cs, st, specs[0], actuals[0], depth);
      UnifyComplete(d, cs, st, specs[0], actuals[0], depth, g, t);
      UnifyAllComplete(d, cs, first.1, specs[1..], actuals[1..], depth, g, t);
      var last := UnifyAll(d, cs, first.1, specs[1..], actuals[1..], depth).1;
      UnifyAllExtends(d, cs, first.1, specs[1..], actuals[1..], depth);
      StillCovered(d, cs, [specs[0]], first.1, last);
      assert specs[0] in [specs[0]];
      assert specs == [specs[0]] + specs[1..];
    }
  }

  // ---- what a spec depends on ------------------------------------------------------------------------

  lemma {:induction false} NoLeaf(spec: Spec, names: set<string>, n: string)
    requires !HasLeaf(spec, names) && n in names
    ensures !Mentioned(spec, n)
  {
    forall p | p in spec.params ensures !Mentioned(p, n) { NoLeaf(p, names, n); }
    if spec.Func? { NoLeaf(spec.result, names, n); }
  }

  // A spec resolves alike under parameters that agree on what it mentions.
  lemma {:induction false} ResolveAgrees(d: Decls, q: Params, t: Params, spec: Spec, depth: nat)
    requires q.Keys == t.Keys && forall n :: n in t && Mentioned(spec, n) ==> q[n] == t[n]
    ensures Resolve(d, q, spec, depth) == Resolve(d, t, spec, depth)
    decreases spec
  {
    hide Head, BUILTIN;
    assert forall p, n :: p in spec.params && Mentioned(p, n) ==> Mentioned(spec, n);
    match spec
    case Func(ps, r) =>
      assert forall n :: Mentioned(r, n) ==> Mentioned(spec, n);
      ResolveAllAgrees(d, q, t, ps, depth + 1);
      ResolveAgrees(d, q, t, r, depth + 1);
    case Named(n, ps) =>
      if n in t && ps == [] { assert Mentioned(spec, n); }
      ResolveAllAgrees(d, q, t, ps, depth + 1);
  }

  lemma {:induction false} ResolveAllAgrees(d: Decls, q: Params, t: Params, ss: seq<Spec>, depth: nat)
    requires q.Keys == t.Keys && forall s, n :: s in ss && n in t && Mentioned(s, n) ==> q[n] == t[n]
    ensures ResolveAll(d, q, ss, depth) == ResolveAll(d, t, ss, depth)
    decreases ss
  {
    hide Resolve, Mentioned;
    if ss != [] {
      ResolveAgrees(d, q, t, ss[0], depth);
      ResolveAllAgrees(d, q, t, ss[1..], depth);
    }
  }

  // ---- what a spec resolves to --------------------------------------------------------------------------

  // A type with its type variables replaced.
  function Put(ty: Type, t: Params): Type {
    match ty
    case Generic(n, _) => if n in t then t[n] else ty
    case Apply(c, ts) => Apply(c, PutAll(ts, t))
    case Struct(n, ts) => Struct(n, PutAll(ts, t))
    case Function(ts, r) => Function(PutAll(ts, t), Put(r, t))
    case _ => ty
  }

  function PutAll(ts: seq<Type>, t: Params): (r: seq<Type>)
    ensures |r| == |ts| && forall i :: 0 <= i < |ts| ==> r[i] == Put(ts[i], t)
  {
    if ts == [] then [] else [Put(ts[0], t)] + PutAll(ts[1..], t)
  }

  // Resolving a signature under an instantiation gives the type it has over its own variables, with the
  // variables replaced.
  lemma {:induction false} ResolveInstantiates(d: Decls, g: Params, t: Params, spec: Spec, depth: nat)
    requires g.Keys == t.Keys && forall n :: n in g ==> g[n].Generic? && g[n].name == n
    requires Resolve(d, g, spec, depth).Some? && Resolve(d, t, spec, depth).Some?
    ensures Resolve(d, t, spec, depth).value == Put(Resolve(d, g, spec, depth).value, t)
    decreases spec
  {
    hide Head, BUILTIN;
    match spec
    case Func(ps, r) =>
      AllInstantiate(d, g, t, ps, depth + 1);
      ResolveInstantiates(d, g, t, r, depth + 1);
    case Named(n, ps) =>
      if ResolveAll(d, g, ps, depth + 1).Some? && ResolveAll(d, t, ps, depth + 1).Some? {
        AllInstantiate(d, g, t, ps, depth + 1);
        HeadInstantiates(d, n, ResolveAll(d, g, ps, depth + 1).value, t);
      }
      HeadOfTasks(d);
  }

  lemma {:induction false} AllInstantiate(d: Decls, g: Params, t: Params, ss: seq<Spec>, depth: nat)
    requires g.Keys == t.Keys && forall n :: n in g ==> g[n].Generic? && g[n].name == n
    requires ResolveAll(d, g, ss, depth).Some? && ResolveAll(d, t, ss, depth).Some?
    ensures ResolveAll(d, t, ss, depth).value == PutAll(ResolveAll(d, g, ss, depth).value, t)
    decreases ss
  {
    hide Resolve;
    var now, then' := ResolveAll(d, t, ss, depth).value, PutAll(ResolveAll(d, g, ss, depth).value, t);
    forall i | 0 <= i < |ss| ensures now[i] == then'[i] {
      ResolveInstantiates(d, g, t, ss[i], depth);
    }
  }

  lemma HeadInstantiates(d: Decls, n: string, ts: seq<Type>, t: Params)
    ensures Head(d, n, ts).Some? && Head(d, n, PutAll(ts, t)).Some? ==> Head(d, n, PutAll(ts, t)).value == Put(Head(d, n, ts).value, t)
  {}

  lemma HeadOfTasks(d: Decls)
    ensures forall ts :: Head(d, "TaskGroup", ts) == Some(Scalar("TaskGroup"))
  {}

  // Arrays of arrays, `k` deep.
  function Nested(k: nat): Spec { if k == 0 then Variable("Int") else Named("Array", [Nested(k - 1)]) }

  function NestedType(k: nat): Type { if k == 0 then Scalar("Int") else Apply(Array, [NestedType(k - 1)]) }

  // A type resolves exactly down to the depth the limit allows.
  lemma {:induction false} DepthLimitExactly(d: Decls, params: Params, k: nat, depth: nat)
    ensures Resolve(d, params, Nested(k), depth) == if depth + k <= d.maxDepth then Some(NestedType(k)) else None
    decreases k
  {
    if k > 0 && depth <= d.maxDepth {
      DepthLimitExactly(d, params, k - 1, depth + 1);
      var inner := [Nested(k - 1)];
      assert ResolveAll(d, params, inner, depth + 1).Some? <==> Resolve(d, params, inner[0], depth + 1).Some?;
      if depth + k <= d.maxDepth { assert ResolveAll(d, params, inner, depth + 1).value == [NestedType(k - 1)]; }
    }
  }
}
