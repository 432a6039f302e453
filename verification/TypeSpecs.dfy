// Type expressions of the typed IR and the substitution the monomorphiser applies to them.
module TypeSpecs {

  datatype Spec = Named(name: string, params: seq<Spec>) | Func(params: seq<Spec>, result: Spec)

  type Substitution = map<string, Spec>

  function Variable(n: string): Spec { Named(n, []) }

  // The backend's traversals stop below this depth; the root has depth 0.
  const MAX_VISIT: nat := 128

  function Room(d: nat): nat { if d <= MAX_VISIT + 1 then MAX_VISIT + 2 - d else 0 }

  // The backend's substitution: a leaf is replaced, and the walk then goes on below the
  // replacement.
  function Visit(t: Spec, s: Substitution, d: nat): Spec
    decreases Room(d), 1
  {
    if d > MAX_VISIT then t
    else if t.Named? && t.params == [] && t.name in s && s[t.name] != t then VisitBelow(s[t.name], s, d)
    else VisitBelow(t, s, d)
  }

  function VisitBelow(t: Spec, s: Substitution, d: nat): Spec
    requires d <= MAX_VISIT
    decreases Room(d), 0
  {
    match t
    case Named(n, ps) => Named(n, VisitAll(ps, s, d + 1))
    case Func(ps, r) => Func(VisitAll(ps, s, d + 1), Visit(r, s, d + 1))
  }

  function VisitAll(ts: seq<Spec>, s: Substitution, d: nat): (r: seq<Spec>)
    ensures |r| == |ts| && forall i :: 0 <= i < |ts| ==> r[i] == Visit(ts[i], s, d)
    decreases Room(d), 2, |ts|
  {
    if ts == [] then [] else [Visit(ts[0], s, d)] + VisitAll(ts[1..], s, d)
  }

  function Substitute(t: Spec, s: Substitution): Spec {
    if |s| == 0 then t else Visit(t, s, 0)
  }

  // Simultaneous substitution: what the type means under an instantiation.
  function Subst(t: Spec, s: Substitution): Spec {
    match t
    case Named(n, ps) => if ps == [] && n in s then s[n] else Named(n, SubstAll(ps, s))
    case Func(ps, r) => Func(SubstAll(ps, s), Subst(r, s))
  }

  function SubstAll(ts: seq<Spec>, s: Substitution): (r: seq<Spec>)
    ensures |r| == |ts| && forall i :: 0 <= i < |ts| ==> r[i] == Subst(ts[i], s)
  {
    if ts == [] then [] else [Subst(ts[0], s)] + SubstAll(ts[1..], s)
  }

  // No node lies more than `k` edges below the root.
  predicate Within(t: Spec, k: nat) {
    && (t.params != [] ==> k > 0 && forall p :: p in t.params ==> Within(p, k - 1))
    && (t.Func? ==> k > 0 && Within(t.result, k - 1))
  }

  predicate HasLeaf(t: Spec, names: set<string>) {
    match t
    case Named(n, ps) => (ps == [] && n in names) || exists p :: p in ps && HasLeaf(p, names)
    case Func(ps, r) => HasLeaf(r, names) || exists p :: p in ps && HasLeaf(p, names)
  }

  // A leaf strictly below the root.
  predicate HasInnerLeaf(t: Spec, names: set<string>) {
    match t
    case Named(n, ps) => exists p :: p in ps && HasLeaf(p, names)
    case Func(ps, r) => HasLeaf(r, names) || exists p :: p in ps && HasLeaf(p, names)
  }

  // The names that a substitution really changes.
  function Active(s: Substitution): set<string> { set n | n in s && s[n] != Variable(n) }

  ghost predicate RangesClosed(s: Substitution) {
    forall n :: n in Active(s) ==> !HasInnerLeaf(s[n], Active(s))
  }

  lemma {:induction false} Untouched(t: Spec, s: Substitution, d: nat)
    requires !HasLeaf(t, Active(s))
    ensures Visit(t, s, d) == t
    decreases t
  {
    if d <= MAX_VISIT {
      UntouchedBelow(t, s, d);
    }
  }

  lemma {:induction false} UntouchedBelow(t: Spec, s: Substitution, d: nat)
    requires !HasInnerLeaf(t, Active(s)) && d <= MAX_VISIT
    ensures VisitBelow(t, s, d) == t
    decreases t, 0
  {
    forall i | 0 <= i < |t.params| ensures Visit(t.params[i], s, d + 1) == t.params[i] {
      assert t.params[i] in t.params;
      Untouched(t.params[i], s, d + 1);
    }
    if t.Func? { Untouched(t.result, s, d + 1); }
  }

  // With closed ranges the walk is simultaneous substitution.
  lemma {:induction false} VisitIsSubst(t: Spec, s: Substitution, d: nat)
    requires RangesClosed(s) && d <= MAX_VISIT && Within(t, MAX_VISIT - d)
    ensures Visit(t, s, d) == Subst(t, s)
    decreases t
  {
    if t.Named? && t.params == [] && t.name in s {
      if s[t.name] != t { UntouchedBelow(s[t.name], s, d); } else { assert VisitAll([], s, d + 1) == []; }
    } else {
      forall i | 0 <= i < |t.params| ensures Visit(t.params[i], s, d + 1) == Subst(t.params[i], s) {
        assert t.params[i] in t.params;
        VisitIsSubst(t.params[i], s, d + 1);
      }
      if t.Func? { VisitIsSubst(t.result, s, d + 1); }
    }
  }

  lemma {:induction false} ChangedLeaf(t: Spec, s: Substitution, d: nat)
    requires d <= MAX_VISIT && Within(t, MAX_VISIT - d) && Visit(t, s, d) == t
    ensures !HasLeaf(t, Active(s))
    decreases t
  {
    if t.Named? && t.params == [] && t.name in Active(s) {
      assert false;
    }
    ChangedBelow(t, s, d);
  }

  lemma {:induction false} ChangedBelow(t: Spec, s: Substitution, d: nat)
    requires d <= MAX_VISIT && Within(t, MAX_VISIT - d) && VisitBelow(t, s, d) == t
    ensures !HasInnerLeaf(t, Active(s))
    decreases t, 0
  {
    forall p | p in t.params ensures !HasLeaf(p, Active(s)) {
      var i :| 0 <= i < |t.params| && t.params[i] == p;
      assert VisitBelow(t, s, d).params[i] == Visit(p, s, d + 1);
      ChangedLeaf(p, s, d + 1);
    }
    if t.Func? { ChangedLeaf(t.result, s, d + 1); }
  }

  ghost predicate AgreesOnAll(s: Substitution) {
    forall t :: Within(t, MAX_VISIT) ==> Visit(t, s, 0) == Subst(t, s)
  }

  // Exactly the substitutions with closed ranges are applied simultaneously.
  lemma SimultaneousExactly(s: Substitution)
    requires forall n :: n in s ==> Within(s[n], MAX_VISIT)
    ensures AgreesOnAll(s) <==> RangesClosed(s)
  {
    if RangesClosed(s) {
      forall t | Within(t, MAX_VISIT) ensures Visit(t, s, 0) == Subst(t, s) { VisitIsSubst(t, s, 0); }
    }
    if AgreesOnAll(s) {
      forall n | n in Active(s) ensures !HasInnerLeaf(s[n], Active(s)) {
        LeafVisited(n, s);
        hide Visit, VisitBelow, Subst, HasInnerLeaf;
        assert Visit(Variable(n), s, 0) == Subst(Variable(n), s);
        ChangedBelow(s[n], s, 0);
      }
    }
  }

  lemma LeafVisited(n: string, s: Substitution)
    requires n in Active(s)
    ensures Within(Variable(n), MAX_VISIT)
    ensures Visit(Variable(n), s, 0) == VisitBelow(s[n], s, 0) && Subst(Variable(n), s) == s[n]
  {
    hide VisitBelow;
  }

  // A struct named like a type parameter breaks it: with A := Array[B] and B := Int, the
  // parameter A becomes Array[Int].
  lemma CapturedName()
    ensures var s := map["A" := Named("Array", [Variable("B")]), "B" := Variable("Int")];
      Visit(Variable("A"), s, 0) == Named("Array", [Variable("Int")]) && Subst(Variable("A"), s) == Named("Array", [Variable("B")])
  {
    var s := map["A" := Named("Array", [Variable("B")]), "B" := Variable("Int")];
    assert VisitAll([], s, 2) == [];
    assert Visit(Variable("B"), s, 1) == Variable("Int");
    assert [Variable("B")][1..] == [];
    assert VisitAll([], s, 1) == [];
    assert VisitAll([Variable("B")], s, 1) == [Variable("Int")];
  }

  // Substituting twice is substituting once with the composition.
  function Compose(s: Substitution, u: Substitution): Substitution {
    map n | n in s.Keys + u.Keys :: if n in s then Subst(s[n], u) else u[n]
  }

  lemma {:induction false} SubstComposes(t: Spec, s: Substitution, u: Substitution)
    ensures Subst(Subst(t, s), u) == Subst(t, Compose(s, u))
    decreases t
  {
    if t.Named? && t.params == [] {
      if t.name !in s { assert SubstAll([], s) == []; }
    } else {
      var ps := SubstAll(t.params, s);
      assert ps != [] || t.Func?;
      forall i | 0 <= i < |t.params| ensures Subst(ps[i], u) == Subst(t.params[i], Compose(s, u)) {
        SubstComposes(t.params[i], s, u);
      }
      assert SubstAll(ps, u) == SubstAll(t.params, Compose(s, u));
      if t.Func? { SubstComposes(t.result, s, u); }
    }
  }

  // An instance reached through another instance: substituting the call's written arguments into
  // the callee's types and then specialising for the caller gives the callee's own instantiation.
  lemma {:induction false} InstanceOfInstance(t: Spec, names: set<string>, vars: set<string>, args: Substitution, outer: Substitution, inner: Substitution)
    requires args.Keys == inner.Keys && outer.Keys <= vars
    requires forall n :: n in args ==> inner[n] == Subst(args[n], outer)
    requires !HasLeaf(t, vars - args.Keys)
    ensures Subst(t, inner) == Subst(Subst(t, args), outer)
  {
    SubstComposes(t, args, outer);
    SubstAgrees(t, inner, Compose(args, outer), vars - args.Keys);
  }

  lemma {:induction false} SubstAgrees(t: Spec, s: Substitution, u: Substitution, except: set<string>)
    requires s.Keys <= u.Keys && (forall n :: n in s ==> s[n] == u[n])
    requires u.Keys - s.Keys <= except && !HasLeaf(t, except)
    ensures Subst(t, s) == Subst(t, u)
    decreases t
  {
    forall i | 0 <= i < |t.params| ensures Subst(t.params[i], s) == Subst(t.params[i], u) {
      assert t.params[i] in t.params;
      SubstAgrees(t.params[i], s, u, except);
    }
    assert SubstAll(t.params, s) == SubstAll(t.params, u);
    if t.Func? { SubstAgrees(t.result, s, u, except); }
  }

  // Specialising a type whose variables the substitution binds to variable-free types leaves no
  // variable.
  lemma {:induction false} SubstCloses(t: Spec, s: Substitution, vars: set<string>)
    requires forall n :: n in s ==> !HasLeaf(s[n], vars)
    requires !HasLeaf(t, vars - s.Keys)
    ensures !HasLeaf(Subst(t, s), vars)
    decreases t
  {
    if t.Named? && t.params == [] && t.name in s {
    } else {
      var ps := SubstAll(t.params, s);
      forall p | p in ps ensures !HasLeaf(p, vars) {
        var i :| 0 <= i < |ps| && ps[i] == p;
        assert t.params[i] in t.params;
        SubstCloses(t.params[i], s, vars);
      }
      if t.Func? { SubstCloses(t.result, s, vars); }
    }
  }

  // ---- types by their positions -------------------------------------------------------------------------

  // The part of a type at a path of argument positions; a function's result comes after its parameters.
  function Part(t: Spec, path: seq<nat>): (r: Spec)
    requires IsPath(t, path)
    decreases |path|
  {
    if path == [] then t else Part(Inside(t, path[0]), path[1..])
  }

  predicate IsPath(t: Spec, path: seq<nat>)
    decreases |path|
  {
    path == [] || (path[0] < Width(t) && IsPath(Inside(t, path[0]), path[1..]))
  }

  function Width(t: Spec): nat { |t.params| + if t.Func? then 1 else 0 }

  function Inside(t: Spec, i: nat): (r: Spec)
    requires i < Width(t)
    ensures r < t
  {
    if i < |t.params| then t.params[i] else t.result
  }

  predicate LeafAt(t: Spec, path: seq<nat>, n: string) { IsPath(t, path) && Part(t, path) == Variable(n) }

  lemma {:induction false} LeavesExactly(t: Spec, names: set<string>)
    ensures HasLeaf(t, names) <==> exists path, n :: n in names && LeafAt(t, path, n)
    decreases t
  {
    if HasLeaf(t, names) {
      var path, n := LeafPath(t, names);
      assert LeafAt(t, path, n);
    }
    forall path, n | n in names && LeafAt(t, path, n) ensures HasLeaf(t, names) { LeafFound(t, names, path, n); }
  }

  lemma {:induction false} LeafPath(t: Spec, names: set<string>) returns (path: seq<nat>, n: string)
    requires HasLeaf(t, names)
    ensures n in names && LeafAt(t, path, n)
    decreases t
  {
    if t.Named? && t.params == [] {
      path, n := [], t.name;
    } else {
      var i: nat := |t.params|;
      if !(t.Func? && HasLeaf(t.result, names)) {
        var p :| p in t.params && HasLeaf(p, names);
        i :| i < |t.params| && t.params[i] == p;
      }
      var rest;
      rest, n := LeafPath(Inside(t, i), names);
      path := [i] + rest;
      assert path[1..] == rest;
    }
  }

  lemma {:induction false} LeafFound(t: Spec, names: set<string>, path: seq<nat>, n: string)
    requires n in names && LeafAt(t, path, n)
    ensures HasLeaf(t, names)
    decreases |path|
  {
    if path != [] {
      LeafFound(Inside(t, path[0]), names, path[1..], n);
    }
  }

  // Substitution replaces the leaves it binds, each by its type, and leaves every other node as it was.
  lemma {:induction false} SubstByPaths(t: Spec, s: Substitution, path: seq<nat>)
    requires IsPath(t, path)
    ensures IsPath(Subst(t, s), path)
    ensures var (was, now) := (Part(t, path), Part(Subst(t, s), path));
      if was.Named? && was.params == [] && was.name in s then now == s[was.name]
      else |now.params| == |was.params| && (now.Func? <==> was.Func?) && (was.Named? ==> now.name == was.name)
    decreases |path|
  {
    if path != [] {
      var i := path[0];
      assert Inside(Subst(t, s), i) == Subst(Inside(t, i), s);
      SubstByPaths(Inside(t, i), s, path[1..]);
    }
  }
}
