// The C backend's monomorphiser: a worklist of function instances grown while bodies are walked,
// and the emission that afterwards looks every instance up again without creating any.
module Monomorphise {
  import opened Wrappers
  import opened TypeSpecs

  // ---- the checked program, as the walks see it ----------------------------------------------

  datatype Kind =
    | StructLiteral
    | Call(target: string, generics: seq<Spec>)
    | TraitCall(traitName: string, method': string, generics: seq<Spec>)
    // The argument positions that the lowering of the builtin asks for.
    | BuiltinCall(used: seq<nat>)
    | Unary | Propagate | Binary | Index | Field | Items | MapLiteral | Leaf

  // An expression with every edge of its row.
  datatype Expr = Expr(
    kind: Kind, typ: Spec,
    left: Option<Expr>, right: Option<Expr>, operand: Option<Expr>, callee: Option<Expr>, base: Option<Expr>, receiver: Option<Expr>,
    args: seq<Expr>, items: seq<Expr>, keys: seq<Expr>, values: seq<Expr>)

  datatype Block = Block(body: seq<Stmt>)

  // The expression edges of a statement's row, the one its kind is lowered from, and its blocks.
  datatype Stmt = Stmt(isReturn: bool, exprs: seq<Expr>, lowered: Option<nat>, branches: seq<Block>)

  datatype Function = Function(typeParams: seq<string>, receiver: Option<Spec>, defaults: seq<Expr>, body: seq<Stmt>)

  datatype StructDecl = StructDecl(name: string, typeParams: seq<string>)

  datatype TraitImpl = TraitImpl(traitName: string, for': Spec, methods: seq<(string, string)>)

  datatype Program = Program(
    structs: seq<StructDecl>, functions: seq<Function>, byTarget: map<string, nat>,
    impls: seq<TraitImpl>, top: seq<Stmt>, maxTypeDepth: nat)
  {
    predicate Valid() { forall t :: t in byTarget ==> byTarget[t] < |functions| }
  }

  function Present(x: Option<Expr>): seq<Expr> { if x.Some? then [x.value] else [] }

  // What the planning walk visits: every edge, whatever the kind.
  function Children(e: Expr): (r: seq<Expr>)
    ensures forall x :: x in r ==> x < e
  {
    Present(e.left) + Present(e.right) + Present(e.operand) + Present(e.callee) + Present(e.base) + Present(e.receiver)
    + e.args + e.items + e.keys + e.values
  }

  function Interleaved(keys: seq<Expr>, values: seq<Expr>): (r: seq<Expr>)
    ensures forall i :: 0 <= i < |r| ==> r[i] in keys || r[i] in values
  {
    if keys == [] || values == [] then [] else [keys[0], values[0]] + Interleaved(keys[1..], values[1..])
  }

  function Chosen(args: seq<Expr>, used: seq<nat>): (r: seq<Expr>)
    ensures forall i :: 0 <= i < |r| ==> r[i] in args
  {
    if used == [] then []
    else (if used[0] < |args| then [args[used[0]]] else []) + Chosen(args, used[1..])
  }

  // What emission visits, in the order of the emitted text: only the edges its kind is lowered
  // from. An index expression's base comes before its index, and a map's keys and values alternate.
  function Lowered(e: Expr): (r: seq<Expr>)
    ensures forall i :: 0 <= i < |r| ==> r[i] < e
  {
    match e.kind
    case StructLiteral => e.values
    case Call(_, _) => Present(e.receiver) + e.args
    case TraitCall(_, _, _) => Present(e.receiver) + e.args
    case BuiltinCall(used) => Chosen(e.args, used)
    case Unary => Present(e.operand)
    case Propagate => Present(e.operand)
    case Binary => Present(e.left) + Present(e.right)
    case Index => Present(e.base) + Present(e.left)
    case Field => Present(e.base)
    case Items => e.items
    case MapLiteral => Interleaved(e.keys, e.values)
    case Leaf => []
  }

  // The expression a statement is lowered from; a returned `x?` is lowered from `x`.
  function LoweredFrom(t: Stmt): (r: seq<Expr>)
    ensures forall x :: x in r ==> x in t.exprs || exists y :: y in t.exprs && x in Children(y)
  {
    if t.lowered.None? || t.lowered.value >= |t.exprs| then []
    else
      var x := t.exprs[t.lowered.value];
      if t.isReturn && x.kind.Propagate? && x.operand.Some? then assert x.operand.value in Children(x); [x.operand.value] else [x]
  }

  // The row has the edges of its kind and no others, and a builtin asks for every argument once.
  predicate Shaped(e: Expr) {
    var bare := Expr(e.kind, e.typ, None, None, None, None, None, None, [], [], [], []);
    match e.kind
    case StructLiteral => e == bare.(values := e.values)
    case Call(_, _) => e == bare.(receiver := e.receiver, args := e.args)
    case TraitCall(_, _, _) => e == bare.(receiver := e.receiver, args := e.args)
    case BuiltinCall(used) => e == bare.(args := e.args) && multiset(used) == multiset(Positions(|e.args|))
    case Unary => e == bare.(operand := e.operand)
    case Propagate => e == bare.(operand := e.operand)
    case Binary => e == bare.(left := e.left, right := e.right)
    case Index => e == bare.(base := e.base, left := e.left)
    case Field => e == bare.(base := e.base)
    case Items => e == bare.(items := e.items)
    case MapLiteral => e == bare.(keys := e.keys, values := e.values) && |e.keys| == |e.values|
    case Leaf => e == bare
  }

  function Positions(n: nat): seq<nat> { if n == 0 then [] else Positions(n - 1) + [n - 1] }

  // Of such a row emission leaves out nothing and emits nothing twice.
  lemma LoweredOnce(e: Expr)
    requires Shaped(e)
    ensures multiset(Lowered(e)) == multiset(Children(e))
  {
    hide Children, Present, Interleaved, Chosen, Positions;
    ShapedChildren(e);
    match e.kind
    case MapLiteral => EachOnce(e.keys, e.values);
    case BuiltinCall(used) => ChosenOnce(e.args, used);
    case _ =>
  }

  lemma ShapedChildren(e: Expr)
    requires Shaped(e)
    ensures match e.kind
      case Index => Children(e) == Present(e.left) + Present(e.base)
      case MapLiteral => Children(e) == e.keys + e.values
      case BuiltinCall(_) => Children(e) == e.args
      case _ => Children(e) == Lowered(e)
  {
    hide Interleaved, Chosen, Positions, Shaped;
    ShapeParts(e);
    assert forall x: Option<Expr> :: x.None? ==> Present(x) == [];
    hide Present;
  }

  // The edges a kind does not have.
  lemma ShapeParts(e: Expr)
    requires Shaped(e)
    ensures e.callee.None?
    ensures !e.kind.Binary? && !e.kind.Index? ==> e.left.None?
    ensures !e.kind.Binary? ==> e.right.None?
    ensures !e.kind.Unary? && !e.kind.Propagate? ==> e.operand.None?
    ensures !e.kind.Index? && !e.kind.Field? ==> e.base.None?
    ensures !e.kind.Call? && !e.kind.TraitCall? ==> e.receiver.None?
    ensures !e.kind.Call? && !e.kind.TraitCall? && !e.kind.BuiltinCall? ==> e.args == []
    ensures !e.kind.Items? ==> e.items == []
    ensures !e.kind.MapLiteral? ==> e.keys == []
    ensures !e.kind.MapLiteral? && !e.kind.StructLiteral? ==> e.values == []
  {
    hide Positions;
  }

  lemma {:induction false} EachOnce(keys: seq<Expr>, values: seq<Expr>)
    requires |keys| == |values|
    ensures multiset(Interleaved(keys, values)) == multiset(keys) + multiset(values)
  {
    if keys != [] {
      EachOnce(keys[1..], values[1..]);
      FirstOut(keys);
      FirstOut(values);
      TwoFirst(keys[0], values[0], Interleaved(keys[1..], values[1..]));
      assert Interleaved(keys, values) == [keys[0], values[0]] + Interleaved(keys[1..], values[1..]);
      hide Interleaved;
    }
  }

  lemma FirstOut(es: seq<Expr>)
    requires es != []
    ensures multiset(es) == multiset{es[0]} + multiset(es[1..])
  {
    assert es == [es[0]] + es[1..];
  }

  lemma TwoFirst(a: Expr, b: Expr, es: seq<Expr>)
    ensures multiset([a, b] + es) == multiset{a} + multiset{b} + multiset(es)
  {}

  // Arguments chosen by position, as a multiset.
  ghost function ArgsAt(args: seq<Expr>, used: multiset<nat>): multiset<Expr>
    decreases |used|
  {
    if used == multiset{} then multiset{}
    else
      var i :| i in used;
      (if i < |args| then multiset{args[i]} else multiset{}) + ArgsAt(args, used - multiset{i})
  }

  lemma {:induction false} ArgsWithout(args: seq<Expr>, used: multiset<nat>, k: nat)
    requires k in used
    ensures ArgsAt(args, used) == (if k < |args| then multiset{args[k]} else multiset{}) + ArgsAt(args, used - multiset{k})
    decreases |used|
  {
    var i :| i in used && ArgsAt(args, used) == (if i < |args| then multiset{args[i]} else multiset{}) + ArgsAt(args, used - multiset{i});
    if i != k {
      ArgsWithout(args, used - multiset{i}, k);
      ArgsWithout(args, used - multiset{k}, i);
      assert used - multiset{i} - multiset{k} == used - multiset{k} - multiset{i};
    }
  }

  lemma {:induction false} ChosenIsArgs(args: seq<Expr>, used: seq<nat>)
    ensures multiset(Chosen(args, used)) == ArgsAt(args, multiset(used))
  {
    if used != [] {
      assert used == [used[0]] + used[1..];
      assert multiset(used) - multiset{used[0]} == multiset(used[1..]);
      ArgsWithout(args, multiset(used), used[0]);
      ChosenIsArgs(args, used[1..]);
    }
  }

  lemma {:induction false} ChosenPositions(args: seq<Expr>, n: nat)
    requires n <= |args|
    ensures Chosen(args, Positions(n)) == args[..n]
  {
    if n > 0 {
      ChosenPositions(args, n - 1);
      ChosenAppend(args, Positions(n - 1), n - 1);
    }
  }

  lemma {:induction false} ChosenAppend(args: seq<Expr>, used: seq<nat>, k: nat)
    requires k < |args|
    ensures Chosen(args, used + [k]) == Chosen(args, used) + [args[k]]
  {
    if used != [] {
      assert (used + [k])[1..] == used[1..] + [k];
      ChosenAppend(args, used[1..], k);
    }
  }

  lemma ChosenOnce(args: seq<Expr>, used: seq<nat>)
    requires multiset(used) == multiset(Positions(|args|))
    ensures multiset(Chosen(args, used)) == multiset(args)
  {
    ChosenIsArgs(args, used);
    ChosenIsArgs(args, Positions(|args|));
    ChosenPositions(args, |args|);
    assert args[..|args|] == args;
  }

  // Emission stays within what the walk visits.
  lemma LoweredIsWalked(e: Expr)
    ensures forall x :: x in Lowered(e) ==> x in Children(e)
  {}

  // The first declaration of that name.
  function FindStruct(structs: seq<StructDecl>, name: string): (r: Option<StructDecl>)
    ensures r.None? <==> forall i :: 0 <= i < |structs| ==> structs[i].name != name
    ensures r.Some? ==> exists i :: 0 <= i < |structs| && structs[i] == r.value && r.value.name == name && forall k :: 0 <= k < i ==> structs[k].name != name
  {
    if structs == [] then None
    else if structs[0].name == name then Some(structs[0])
    else FindStruct(structs[1..], name)
  }

  // The type parameters of the generic struct a method is declared on.
  function ReceiverParams(p: Program, f: Function): (r: seq<string>)
    ensures r != [] ==> f.receiver.Some? && f.receiver.value.Named?
  {
    if f.receiver.Some? && f.receiver.value.Named? then
      match FindStruct(p.structs, f.receiver.value.name)
      case Some(d) => d.typeParams
      case None => []
    else []
  }

  predicate NeedsSpecialization(p: Program, f: Function) { f.typeParams != [] || ReceiverParams(p, f) != [] }

  // ---- the tests on types ---------------------------------------------------------------------

  function Open(s: Substitution): set<string> { set n | n in s && s[n] == Variable(n) }

  predicate ContainsVariable(t: Spec, names: set<string>) { names != {} && MentionsFrom(t, names, 0) }

  predicate MentionsFrom(t: Spec, names: set<string>, d: nat) {
    || d > MAX_VISIT
    || (t.Named? && t.params == [] && t.name in names)
    || (exists p :: p in t.params && MentionsFrom(p, names, d + 1))
    || (if t.Func? then MentionsFrom(t.result, names, d + 1) else d + 1 > MAX_VISIT)
  }

  // A type mentions a variable when a leaf names it, or when the test does not reach its end.
  lemma {:induction false} MentionsExactly(t: Spec, names: set<string>, d: nat)
    requires d < MAX_VISIT
    ensures MentionsFrom(t, names, d) <==> HasLeaf(t, names) || !Within(t, MAX_VISIT - 1 - d)
    decreases t
  {
    if d + 1 == MAX_VISIT {
      if t.params != [] {
        assert t.params[0] in t.params;
        NotReached(t.params[0], names, d + 1);
      }
      if t.Func? { NotReached(t.result, names, d + 1); }
    } else {
      forall p | p in t.params ensures MentionsFrom(p, names, d + 1) <==> HasLeaf(p, names) || !Within(p, MAX_VISIT - 2 - d) { MentionsExactly(p, names, d + 1); }
      if t.Func? { MentionsExactly(t.result, names, d + 1); }
    }
  }

  lemma NotReached(t: Spec, names: set<string>, d: nat)
    requires d >= MAX_VISIT
    ensures MentionsFrom(t, names, d)
  {}

  lemma ContainsExactly(t: Spec, names: set<string>)
    requires Within(t, MAX_VISIT - 1)
    ensures ContainsVariable(t, names) <==> HasLeaf(t, names)
  {
    MentionsExactly(t, names, 0);
    if names == {} { NothingNamed(t); }
  }

  lemma {:induction false} NothingNamed(t: Spec)
    ensures !HasLeaf(t, {})
  {
    forall p | p in t.params ensures !HasLeaf(p, {}) { NothingNamed(p); }
    if t.Func? { NothingNamed(t.result); }
  }

  function Max(a: nat, b: nat): nat { if a < b then b else a }

  // The missing result of a plain name counts as a level of its own.
  function KirTypeDepth(t: Spec): nat {
    1 + Max(DeepestOf(t.params), if t.Func? then KirTypeDepth(t.result) else 1)
  }

  function DeepestOf(ts: seq<Spec>): nat {
    if ts == [] then 0 else Max(KirTypeDepth(ts[0]), DeepestOf(ts[1..]))
  }

  // The depth counts the levels, and one more below a plain name.
  lemma {:induction false} DepthExactly(t: Spec, k: nat)
    ensures KirTypeDepth(t) <= k + 2 <==> Within(t, k)
    decreases t
  {
    if k == 0 {
      if t.params != [] { DepthAtLeast(t.params[0]); }
      if t.Func? { DepthAtLeast(t.result); }
    } else {
      forall p | p in t.params ensures KirTypeDepth(p) <= k + 1 <==> Within(p, k - 1) { DepthExactly(p, k - 1); }
      if t.Func? { DepthExactly(t.result, k - 1); }
    }
    DeepestExactly(t.params, k + 1);
  }

  lemma DepthAtLeast(t: Spec)
    ensures KirTypeDepth(t) >= 2
  {
    if t.Func? { assert KirTypeDepth(t.result) >= 1; }
  }

  lemma {:induction false} DeepestExactly(ts: seq<Spec>, k: nat)
    ensures DeepestOf(ts) <= k <==> forall t :: t in ts ==> KirTypeDepth(t) <= k
  {
    if ts != [] {
      DeepestExactly(ts[1..], k);
      assert ts[0] in ts && forall t :: t in ts <==> t == ts[0] || t in ts[1..];
    }
  }

  // ---- what a call asks for ---------------------------------------------------------------------

  datatype Key = Key(function': nat, receiverArgs: seq<Spec>, typeArgs: seq<Spec>)

  predicate Specialises(p: Program, arg: Spec, outer: Substitution) {
    !ContainsVariable(arg, Open(outer)) && KirTypeDepth(arg) <= p.maxTypeDepth
  }

  function Bindings(names: seq<string>, args: seq<Spec>): Substitution
    requires |names| == |args|
    decreases |names|
  {
    if names == [] then map[]
    else
      var k := |names| - 1;
      Bindings(names[..k], args[..k])[names[k] := args[k]]
  }

  lemma OneMoreBinding(names: seq<string>, args: seq<Spec>, i: nat)
    requires |names| == |args| && i < |args|
    ensures Bindings(names[..i + 1], args[..i + 1]) == Bindings(names[..i], args[..i])[names[i] := args[i]]
  {
    assert names[..i + 1][..i] == names[..i] && args[..i + 1][..i] == args[..i];
  }

  // The substitution an instance key stands for.
  function KeySubstitution(p: Program, k: Key): Substitution
    requires k.function' < |p.functions|
  {
    var f := p.functions[k.function'];
    if |ReceiverParams(p, f)| == |k.receiverArgs| && |f.typeParams| == |k.typeArgs| then
      Bindings(ReceiverParams(p, f), k.receiverArgs) + Bindings(f.typeParams, k.typeArgs)
    else map[]
  }

  predicate AllDifferent(names: seq<string>) { forall i, j :: 0 <= i < j < |names| ==> names[i] != names[j] }

  lemma {:induction false} BindingsMean(names: seq<string>, args: seq<Spec>)
    requires |names| == |args|
    ensures Bindings(names, args).Keys == set n | n in names
    ensures AllDifferent(names) ==> forall i :: 0 <= i < |names| ==> Bindings(names, args)[names[i]] == args[i]
  {
    if names != [] {
      var k := |names| - 1;
      BindingsMean(names[..k], args[..k]);
      assert names == names[..k] + [names[k]];
    }
  }

  // An instance replaces each type parameter by its argument, and each parameter of the receiver's
  // struct by the receiver's.
  lemma KeyMeans(p: Program, k: Key)
    requires k.function' < |p.functions|
    requires var f := p.functions[k.function'];
      && |ReceiverParams(p, f)| == |k.receiverArgs| && |f.typeParams| == |k.typeArgs|
      && AllDifferent(ReceiverParams(p, f) + f.typeParams)
    ensures var f := p.functions[k.function'];
      && (forall i :: 0 <= i < |f.typeParams| ==> f.typeParams[i] in KeySubstitution(p, k) && KeySubstitution(p, k)[f.typeParams[i]] == k.typeArgs[i])
      && (forall i :: 0 <= i < |ReceiverParams(p, f)| ==>
            ReceiverParams(p, f)[i] in KeySubstitution(p, k) && KeySubstitution(p, k)[ReceiverParams(p, f)[i]] == k.receiverArgs[i])
      && KeySubstitution(p, k).Keys == set n | n in ReceiverParams(p, f) + f.typeParams
  {
    var f := p.functions[k.function'];
    var own := ReceiverParams(p, f);
    var all := own + f.typeParams;
    forall i, j | 0 <= i < j < |own| ensures own[i] != own[j] { assert all[i] != all[j]; }
    forall i, j | 0 <= i < j < |f.typeParams| ensures f.typeParams[i] != f.typeParams[j] { assert all[|own| + i] != all[|own| + j]; }
    forall i, j | 0 <= i < |own| && 0 <= j < |f.typeParams| ensures own[i] != f.typeParams[j] { assert all[i] != all[|own| + j]; }
    BindingsMean(own, k.receiverArgs);
    BindingsMean(f.typeParams, k.typeArgs);
    assert KeySubstitution(p, k) == Bindings(own, k.receiverArgs) + Bindings(f.typeParams, k.typeArgs);
    assert AllDifferent(own) && AllDifferent(f.typeParams);
    hide Bindings, KeySubstitution, AllDifferent, ReceiverParams;
    TwoBindings(own, f.typeParams, Bindings(own, k.receiverArgs), Bindings(f.typeParams, k.typeArgs));
  }

  lemma TwoBindings(own: seq<string>, params: seq<string>, a: Substitution, b: Substitution)
    requires a.Keys == (set n | n in own) && b.Keys == set n | n in params
    requires forall i, j :: 0 <= i < |own| && 0 <= j < |params| ==> own[i] != params[j]
    ensures (a + b).Keys == set n | n in own + params
    ensures forall i :: 0 <= i < |own| ==> own[i] in a + b && (a + b)[own[i]] == a[own[i]]
    ensures forall i :: 0 <= i < |params| ==> params[i] in a + b && (a + b)[params[i]] == b[params[i]]
  {
    forall i | 0 <= i < |own| ensures own[i] in a && own[i] !in b {}
  }

  function SubstituteAll(ts: seq<Spec>, outer: Substitution): (r: seq<Spec>)
    ensures |r| == |ts| && forall i :: 0 <= i < |ts| ==> r[i] == Substitute(ts[i], outer)
  {
    if ts == [] then [] else [Substitute(ts[0], outer)] + SubstituteAll(ts[1..], outer)
  }

  // The instance key of a call of `f` met under `outer`, when the call can be specialised.
  function CallKey(p: Program, f: nat, receiver: Option<Spec>, args: seq<Spec>, outer: Substitution): Option<Key>
    requires f < |p.functions|
  {
    var fun := p.functions[f];
    var own := ReceiverParams(p, fun);
    if |args| != |fun.typeParams| then None
    else if exists a :: a in SubstituteAll(args, outer) && !Specialises(p, a, outer) then None
    else if own == [] then Some(Key(f, [], SubstituteAll(args, outer)))
    else if receiver.None? then None
    else
      var t := Substitute(receiver.value, outer);
      if t.Named? && fun.receiver.value.name == t.name && |t.params| == |own| && forall a :: a in t.params ==> Specialises(p, a, outer)
      then Some(Key(f, t.params, SubstituteAll(args, outer)))
      else None
  }

  function FindMethod(methods: seq<(string, string)>, name: string): Option<string> {
    if methods == [] then None
    else if methods[0].0 == name then Some(methods[0].1)
    else FindMethod(methods[1..], name)
  }

  // The first implementation for the receiver type that has the method decides.
  function FindImplementation(impls: seq<TraitImpl>, traitName: string, name: string, t: Spec, outer: Substitution): Option<string> {
    if impls == [] then None
    else if impls[0].traitName == traitName && Substitute(impls[0].for', outer) == t && FindMethod(impls[0].methods, name).Some? then
      FindMethod(impls[0].methods, name)
    else FindImplementation(impls[1..], traitName, name, t, outer)
  }

  // The first method of that name.
  predicate FirstNamed(methods: seq<(string, string)>, name: string, j: nat) {
    j < |methods| && methods[j].0 == name && forall k :: 0 <= k < j ==> methods[k].0 != name
  }

  predicate Offers(impl: TraitImpl, traitName: string, name: string, t: Spec, outer: Substitution) {
    impl.traitName == traitName && Substitute(impl.for', outer) == t && exists j :: 0 <= j < |impl.methods| && impl.methods[j].0 == name
  }

  // Dispatch by position: the first implementation of this trait for this receiver type that has a
  // method of this name, and there the first of that name.
  predicate DispatchAt(impls: seq<TraitImpl>, traitName: string, name: string, t: Spec, outer: Substitution, i: nat, j: nat) {
    && i < |impls| && j < |impls[i].methods| && impls[i].traitName == traitName && Substitute(impls[i].for', outer) == t && FirstNamed(impls[i].methods, name, j)
    && forall k :: 0 <= k < i ==> !Offers(impls[k], traitName, name, t, outer)
  }

  ghost predicate Dispatches(impls: seq<TraitImpl>, traitName: string, name: string, t: Spec, outer: Substitution, target: string) {
    exists i: nat, j: nat :: DispatchAt(impls, traitName, name, t, outer, i, j) && impls[i].methods[j].1 == target
  }

  lemma {:induction false} FindMethodExactly(methods: seq<(string, string)>, name: string, target: string)
    ensures FindMethod(methods, name) == Some(target) <==> exists j: nat :: FirstNamed(methods, name, j) && methods[j].1 == target
    ensures FindMethod(methods, name) == None <==> forall j :: 0 <= j < |methods| ==> methods[j].0 != name
  {
    if methods != [] {
      FindMethodExactly(methods[1..], name, target);
      if methods[0].0 == name {
        assert FirstNamed(methods, name, 0);
      } else {
        if j: nat :| FirstNamed(methods[1..], name, j) && methods[1..][j].1 == target { assert FirstNamed(methods, name, j + 1) && methods[j + 1].1 == target; }
        if j: nat :| FirstNamed(methods, name, j) && methods[j].1 == target { assert FirstNamed(methods[1..], name, j - 1) && methods[1..][j - 1].1 == target; }
      }
    }
  }

  lemma {:induction false} FindImplementationExactly(impls: seq<TraitImpl>, traitName: string, name: string, t: Spec, outer: Substitution, target: string)
    ensures FindImplementation(impls, traitName, name, t, outer) == Some(target) <==> Dispatches(impls, traitName, name, t, outer, target)
    ensures FindImplementation(impls, traitName, name, t, outer) == None <==>
      forall i :: 0 <= i < |impls| ==> !Offers(impls[i], traitName, name, t, outer)
  {
    hide FindMethod, Substitute, FirstNamed, Dispatches;
    if impls == [] {
      NoneDispatches(traitName, name, t, outer, target);
    } else {
      FindImplementationExactly(impls[1..], traitName, name, t, outer, target);
      FindMethodExactly(impls[0].methods, name, target);
      if Offers(impls[0], traitName, name, t, outer) {
        HeadDispatches(impls, traitName, name, t, outer, target);
      } else {
        TailDispatches(impls, traitName, name, t, outer, target);
      }
    }
  }

  lemma NoneDispatches(traitName: string, name: string, t: Spec, outer: Substitution, target: string)
    ensures !Dispatches([], traitName, name, t, outer, target)
  {}

  lemma HeadDispatches(impls: seq<TraitImpl>, traitName: string, name: string, t: Spec, outer: Substitution, target: string)
    requires impls != [] && Offers(impls[0], traitName, name, t, outer)
    ensures Dispatches(impls, traitName, name, t, outer, target) <==> exists j: nat :: FirstNamed(impls[0].methods, name, j) && impls[0].methods[j].1 == target
  {
    hide Substitute;
    if j: nat :| FirstNamed(impls[0].methods, name, j) && impls[0].methods[j].1 == target { assert DispatchAt(impls, traitName, name, t, outer, 0, j); }
    if Dispatches(impls, traitName, name, t, outer, target) {
      var i: nat, j: nat :| DispatchAt(impls, traitName, name, t, outer, i, j) && impls[i].methods[j].1 == target;
      assert i == 0;
    }
  }

  lemma TailDispatches(impls: seq<TraitImpl>, traitName: string, name: string, t: Spec, outer: Substitution, target: string)
    requires impls != [] && !Offers(impls[0], traitName, name, t, outer)
    ensures Dispatches(impls, traitName, name, t, outer, target) <==> Dispatches(impls[1..], traitName, name, t, outer, target)
  {
    hide Substitute, FirstNamed;
    var rest := impls[1..];
    FirstIsNamed(impls[0].methods, name);
    if Dispatches(rest, traitName, name, t, outer, target) {
      var i: nat, j: nat :| DispatchAt(rest, traitName, name, t, outer, i, j) && rest[i].methods[j].1 == target;
      assert DispatchAt(impls, traitName, name, t, outer, i + 1, j) && impls[i + 1].methods[j].1 == target;
    }
    if Dispatches(impls, traitName, name, t, outer, target) {
      var i: nat, j: nat :| DispatchAt(impls, traitName, name, t, outer, i, j) && impls[i].methods[j].1 == target;
      assert i > 0;
      assert DispatchAt(rest, traitName, name, t, outer, i - 1, j) && rest[i - 1].methods[j].1 == target;
    }
  }

  lemma FirstIsNamed(methods: seq<(string, string)>, name: string)
    ensures forall j: nat :: FirstNamed(methods, name, j) ==> j < |methods| && methods[j].0 == name
  {}

  predicate LowersStruct(p: Program, t: Spec) {
    && t.Named? && FindStruct(p.structs, t.name).Some?
    && var d := FindStruct(p.structs, t.name).value;
    && |t.params| == |d.typeParams|
    && !ContainsVariable(t, set n | n in d.typeParams)
  }

  // A type argument can be specialised exactly when none of its leaves stands for itself around it and it is
  // not too deep.
  lemma SpecialisesExactly(p: Program, arg: Spec, outer: Substitution)
    requires Within(arg, MAX_VISIT - 1) && p.maxTypeDepth >= 2
    ensures Specialises(p, arg, outer) <==>
      (forall path, n :: LeafAt(arg, path, n) ==> !(n in outer && outer[n] == Named(n, []))) && Within(arg, p.maxTypeDepth - 2)
  {
    hide ContainsVariable, KirTypeDepth, Within, LeafAt, HasLeaf;
    ContainsExactly(arg, Open(outer));
    LeavesExactly(arg, Open(outer));
    DepthExactly(arg, p.maxTypeDepth - 2);
  }

  // A struct type can be lowered exactly when the first struct of its name takes as many arguments and no
  // leaf names one of the struct's own parameters.
  lemma LowersExactly(p: Program, t: Spec)
    requires Within(t, MAX_VISIT - 1)
    ensures LowersStruct(p, t) <==>
      t.Named? && exists i: nat :: FirstStruct(p.structs, t.name, i) && |t.params| == |p.structs[i].typeParams| && NoneOf(t, p.structs[i].typeParams)
  {
    hide ContainsVariable, Within, LeafAt, HasLeaf;
    forall names: seq<string> ensures ContainsVariable(t, set n | n in names) <==> !NoneOf(t, names) {
      ContainsExactly(t, set n | n in names);
      LeavesExactly(t, set n | n in names);
    }
    hide FindStruct, NoneOf;
    if t.Named? && FindStruct(p.structs, t.name).Some? {
      var i: nat :| i < |p.structs| && p.structs[i] == FindStruct(p.structs, t.name).value && FirstStruct(p.structs, t.name, i);
      assert forall j: nat :: FirstStruct(p.structs, t.name, j) ==> i == j;
    }
  }

  predicate FirstStruct(structs: seq<StructDecl>, name: string, i: nat) {
    i < |structs| && structs[i].name == name && forall k :: 0 <= k < i ==> structs[k].name != name
  }

  ghost predicate NoneOf(t: Spec, names: seq<string>) { forall path, n :: LeafAt(t, path, n) ==> n !in names }

  // ---- the plan -----------------------------------------------------------------------------------

  datatype Instance = Instance(function': nat, ordinal: nat, key: Key, substitution: Substitution)

  const MAX_INSTANCES: nat := 4096

  datatype Plan = Plan(structs: iset<Spec>, keys: iset<Key>)

  ghost predicate Small(q: Plan) {
    exists f: set<Key> :: Covers(f, q)
  }

  ghost predicate Covers(f: set<Key>, q: Plan) { |f| <= MAX_INSTANCES && forall k :: k in q.keys ==> k in f }

  predicate Includes(a: Plan, b: Plan) { a.structs <= b.structs && a.keys <= b.keys }

  // The function a call site reaches under a substitution.
  function Callee(p: Program, e: Expr, s: Substitution): Option<nat>
    requires p.Valid()
  {
    match e.kind
    case Call(target, _) => if target in p.byTarget then Some(p.byTarget[target]) else None
    case TraitCall(traitName, name, _) =>
      if e.receiver.None? then None else
      (match FindImplementation(p.impls, traitName, name, Substitute(e.receiver.value.typ, s), s)
       case Some(target) => if target in p.byTarget then Some(p.byTarget[target]) else None
       case None => None)
    case _ => None
  }

  // A trait call's receiver type can be lowered.
  predicate TraitLowers(p: Program, e: Expr, s: Substitution) {
    e.receiver.Some?
    && var t := Substitute(e.receiver.value.typ, s);
    LowersStruct(p, t) && !ContainsVariable(t, Open(s))
  }

  predicate TraitReady(p: Program, e: Expr, s: Substitution)
    requires p.Valid()
  {
    TraitLowers(p, e, s) && Callee(p, e, s).Some?
  }

  lemma NotLowered(p: Program, t: Spec)
    requires !t.Named? || FindStruct(p.structs, t.name).None?
    ensures !LowersStruct(p, t)
  {}

  // What emitting the node itself will look up, under the substitution it is emitted with, is in
  // the plan.
  ghost predicate SitePlanned(p: Program, plan: Plan, e: Expr, s: Substitution)
    requires p.Valid()
  {
    && (e.kind.StructLiteral? ==> LowersStruct(p, Substitute(e.typ, s)) && Substitute(e.typ, s) in plan.structs)
    && (e.kind.TraitCall? ==> TraitReady(p, e, s) && Substitute(e.receiver.value.typ, s) in plan.structs)
    && (Callee(p, e, s).Some? && NeedsSpecialization(p, p.functions[Callee(p, e, s).value]) ==>
          var k := CallKey(p, Callee(p, e, s).value, ReceiverType(e), e.kind.generics, s);
          k.Some? && k.value in plan.keys)
  }

  function ReceiverType(e: Expr): Option<Spec> { if e.receiver.Some? then Some(e.receiver.value.typ) else None }

  ghost predicate ExprPlanned(p: Program, plan: Plan, e: Expr, s: Substitution)
    requires p.Valid()
  {
    && SitePlanned(p, plan, e, s)
    && forall x :: x in Children(e) ==> ExprPlanned(p, plan, x, s)
  }

  ghost predicate StmtPlanned(p: Program, plan: Plan, t: Stmt, s: Substitution)
    requires p.Valid()
    decreases t
  {
    && ExprsPlanned(p, plan, t.exprs, s)
    && forall b :: b in t.branches ==> BodyPlanned(p, plan, b.body, s)
  }

  ghost predicate BodyPlanned(p: Program, plan: Plan, body: seq<Stmt>, s: Substitution)
    requires p.Valid()
    decreases body
  {
    forall t :: t in body ==> StmtPlanned(p, plan, t, s)
  }

  ghost predicate FunctionPlanned(p: Program, plan: Plan, f: Function, s: Substitution)
    requires p.Valid()
  {
    ExprsPlanned(p, plan, f.defaults, s) && BodyPlanned(p, plan, f.body, s)
  }

  ghost predicate ExprsPlanned(p: Program, plan: Plan, es: seq<Expr>, s: Substitution)
    requires p.Valid()
  {
    forall x :: x in es ==> ExprPlanned(p, plan, x, s)
  }

  lemma ExprsStillPlanned(p: Program, a: Plan, b: Plan, es: seq<Expr>, s: Substitution)
    requires p.Valid() && Includes(a, b) && ExprsPlanned(p, a, es, s)
    ensures ExprsPlanned(p, b, es, s)
  {
    forall x | x in es ensures ExprPlanned(p, b, x, s) { ExprStillPlanned(p, a, b, x, s); }
  }

  // A plan from which nothing emission looks up is missing.
  ghost predicate ClosedPlan(p: Program, q: Plan)
    requires p.Valid()
  {
    && StructsPlanned(p, q, p.structs)
    && RegularPlanned(p, q, |p.functions|)
    && BodyPlanned(p, q, p.top, map[])
    && KeysClosed(p, q)
  }

  ghost predicate StructPlanned(p: Program, q: Plan, d: StructDecl) {
    LowersStruct(p, Variable(d.name)) && Variable(d.name) in q.structs
  }

  ghost predicate StructsPlanned(p: Program, q: Plan, ds: seq<StructDecl>) {
    forall d :: d in ds && d.typeParams == [] ==> StructPlanned(p, q, d)
  }

  // Functions that are emitted once, as they are.
  function Regular(p: Program, n: nat): seq<nat>
    requires n <= |p.functions|
  {
    if n == 0 then []
    else Regular(p, n - 1) + (if NeedsSpecialization(p, p.functions[n - 1]) then [] else [n - 1])
  }

  lemma {:induction false} RegularInRange(p: Program, n: nat)
    requires n <= |p.functions|
    ensures forall x: nat :: x in Regular(p, n) <==> x < n && !NeedsSpecialization(p, p.functions[x])
  {
    if n > 0 { RegularInRange(p, n - 1); }
  }

  ghost predicate RegularPlanned(p: Program, q: Plan, n: nat)
    requires p.Valid() && n <= |p.functions|
  {
    forall i :: 0 <= i < n && !NeedsSpecialization(p, p.functions[i]) ==> FunctionPlanned(p, q, p.functions[i], map[])
  }

  lemma RegularStillPlanned(p: Program, a: Plan, b: Plan, n: nat)
    requires p.Valid() && n <= |p.functions| && Includes(a, b) && RegularPlanned(p, a, n)
    ensures RegularPlanned(p, b, n)
  {
    forall i | 0 <= i < n && !NeedsSpecialization(p, p.functions[i]) ensures FunctionPlanned(p, b, p.functions[i], map[]) {
      FunctionStillPlanned(p, a, b, p.functions[i], map[]);
    }
  }

  lemma StructsStillPlanned(p: Program, a: Plan, b: Plan)
    requires Includes(a, b) && StructsPlanned(p, a, p.structs)
    ensures StructsPlanned(p, b, p.structs)
  {}

  ghost predicate KeysPlanned(p: Program, q: Plan, instances: seq<Instance>)
    requires p.Valid()
  {
    forall x :: x in instances ==> KeyPlanned(p, q, x.key)
  }

  ghost predicate KeysClosed(p: Program, q: Plan)
    requires p.Valid()
  {
    forall k :: k in q.keys ==> KeyPlanned(p, q, k)
  }

  lemma KeysStillPlanned(p: Program, a: Plan, b: Plan, instances: seq<Instance>)
    requires p.Valid() && Includes(a, b) && KeysPlanned(p, a, instances)
    ensures KeysPlanned(p, b, instances)
  {
    forall x | x in instances ensures KeyPlanned(p, b, x.key) {
      FunctionStillPlanned(p, a, b, p.functions[x.key.function'], KeySubstitution(p, x.key));
    }
  }

  ghost predicate KeyPlanned(p: Program, q: Plan, k: Key)
    requires p.Valid()
  {
    k.function' < |p.functions| && FunctionPlanned(p, q, p.functions[k.function'], KeySubstitution(p, k))
  }

  // A plan that grows keeps what was planned.
  lemma SiteStillPlanned(p: Program, a: Plan, b: Plan, e: Expr, s: Substitution)
    requires p.Valid() && Includes(a, b) && SitePlanned(p, a, e, s)
    ensures SitePlanned(p, b, e, s)
  {}

  lemma {:induction false} ExprStillPlanned(p: Program, a: Plan, b: Plan, e: Expr, s: Substitution)
    requires p.Valid() && Includes(a, b) && ExprPlanned(p, a, e, s)
    ensures ExprPlanned(p, b, e, s)
    decreases e
  {
    forall x | x in Children(e) ensures ExprPlanned(p, b, x, s) { ExprStillPlanned(p, a, b, x, s); }
  }

  lemma {:induction false} StmtStillPlanned(p: Program, a: Plan, b: Plan, t: Stmt, s: Substitution)
    requires p.Valid() && Includes(a, b) && StmtPlanned(p, a, t, s)
    ensures StmtPlanned(p, b, t, s)
    decreases t
  {
    forall x | x in t.exprs ensures ExprPlanned(p, b, x, s) { ExprStillPlanned(p, a, b, x, s); }
    forall k | k in t.branches ensures BodyPlanned(p, b, k.body, s) { BodyStillPlanned(p, a, b, k.body, s); }
  }

  lemma {:induction false} BodyStillPlanned(p: Program, a: Plan, b: Plan, body: seq<Stmt>, s: Substitution)
    requires p.Valid() && Includes(a, b) && BodyPlanned(p, a, body, s)
    ensures BodyPlanned(p, b, body, s)
    decreases body
  {
    forall t | t in body ensures StmtPlanned(p, b, t, s) { StmtStillPlanned(p, a, b, t, s); }
  }

  lemma {:induction false} FunctionStillPlanned(p: Program, a: Plan, b: Plan, f: Function, s: Substitution)
    requires p.Valid() && Includes(a, b) && FunctionPlanned(p, a, f, s)
    ensures FunctionPlanned(p, b, f, s)
  {
    ExprsStillPlanned(p, a, b, f.defaults, s);
    BodyStillPlanned(p, a, b, f.body, s);
  }

  // ---- what emitted code refers to ----------------------------------------------------------------

  datatype Wish = StructType(typ: Spec) | Ordinary(function': nat) | Specialised(key: Key)

  datatype Symbol = StructId(id: nat) | Ordinary(function': nat) | Instance(ordinal: nat)

  function WantedAt(p: Program, e: Expr, s: Substitution): seq<Wish>
    requires p.Valid()
  {
    if e.kind.StructLiteral? then [StructType(Substitute(e.typ, s))]
    else
      match Callee(p, e, s)
      case None => []
      case Some(f) =>
        if !NeedsSpecialization(p, p.functions[f]) then [Wish.Ordinary(f)]
        else match CallKey(p, f, ReceiverType(e), e.kind.generics, s)
          case Some(k) => [Specialised(k)]
          case None => []
  }

  // What a call of `f` asks for, argument by argument.
  ghost predicate Asks(p: Program, w: Wish, f: nat, e: Expr, s: Substitution)
    requires e.kind.Call? || e.kind.TraitCall?
  {
    f < |p.functions| &&
    if p.functions[f].typeParams == [] && ReceiverParams(p, p.functions[f]) == [] then w == Wish.Ordinary(f)
    else w.Specialised? && w.key.function' == f && AsksFor(p, w.key, e, s)
  }

  ghost predicate AsksFor(p: Program, k: Key, e: Expr, s: Substitution)
    requires e.kind.Call? || e.kind.TraitCall?
  {
    && k.function' < |p.functions|
    && |k.typeArgs| == |p.functions[k.function'].typeParams| == |e.kind.generics|
    && (forall i :: 0 <= i < |k.typeArgs| ==> k.typeArgs[i] == Substitute(e.kind.generics[i], s))
    && |k.receiverArgs| == |ReceiverParams(p, p.functions[k.function'])|
    && (k.receiverArgs != [] ==> e.receiver.Some? && Substitute(e.receiver.value.typ, s) == Named(p.functions[k.function'].receiver.value.name, k.receiverArgs))
  }

  // A trait call's method, by position, with a function behind it.
  ghost predicate TraitTarget(p: Program, e: Expr, s: Substitution, i: nat, j: nat)
    requires e.kind.TraitCall?
  {
    && e.receiver.Some? && DispatchAt(p.impls, e.kind.traitName, e.kind.method', Substitute(e.receiver.value.typ, s), s, i, j)
    && p.impls[i].methods[j].1 in p.byTarget
  }

  // What a node by itself asks for: a literal its type, a call the function its target names, and a
  // trait call the method it dispatches to, by position.
  ghost predicate SiteWants(p: Program, ws: seq<Wish>, e: Expr, s: Substitution) {
    match e.kind
    case StructLiteral => ws == [StructType(Substitute(e.typ, s))]
    case Call(target, _) => if target in p.byTarget then |ws| == 1 && Asks(p, ws[0], p.byTarget[target], e, s) else ws == []
    case TraitCall(_, _, _) =>
      |ws| == 1 && exists i: nat, j: nat :: TraitTarget(p, e, s, i, j) && Asks(p, ws[0], p.byTarget[p.impls[i].methods[j].1], e, s)
    case _ => ws == []
  }

  lemma TraitTargets(p: Program, e: Expr, s: Substitution)
    requires p.Valid() && e.kind.TraitCall?
    ensures Callee(p, e, s).Some? <==> exists i: nat, j: nat :: TraitTarget(p, e, s, i, j)
    ensures Callee(p, e, s).Some? ==>
      exists i: nat, j: nat :: TraitTarget(p, e, s, i, j) && p.byTarget[p.impls[i].methods[j].1] == Callee(p, e, s).value
  {
    hide Substitute, FindImplementation, FirstNamed, Offers;
    if e.receiver.Some? {
      var t := Substitute(e.receiver.value.typ, s);
      var found := FindImplementation(p.impls, e.kind.traitName, e.kind.method', t, s);
      FindImplementationExactly(p.impls, e.kind.traitName, e.kind.method', t, s, if found.Some? then found.value else "");
      if i: nat, j: nat :| TraitTarget(p, e, s, i, j) {
        FindImplementationExactly(p.impls, e.kind.traitName, e.kind.method', t, s, p.impls[i].methods[j].1);
        assert Dispatches(p.impls, e.kind.traitName, e.kind.method', t, s, p.impls[i].methods[j].1);
      }
      if Callee(p, e, s).Some? {
        var i: nat, j: nat :| DispatchAt(p.impls, e.kind.traitName, e.kind.method', t, s, i, j) && p.impls[i].methods[j].1 == found.value;
        assert TraitTarget(p, e, s, i, j);
      }
    }
  }

  lemma CallAsks(p: Program, e: Expr, f: nat, s: Substitution)
    requires p.Valid() && (e.kind.Call? || e.kind.TraitCall?) && Callee(p, e, s) == Some(f)
    requires NeedsSpecialization(p, p.functions[f]) ==> CallKey(p, f, ReceiverType(e), e.kind.generics, s).Some?
    ensures |WantedAt(p, e, s)| == 1 && Asks(p, WantedAt(p, e, s)[0], f, e, s)
  {
    hide Substitute, Specialises, FindImplementation;
  }

  lemma SiteAsks(p: Program, plan: Plan, e: Expr, s: Substitution)
    requires p.Valid() && SitePlanned(p, plan, e, s)
    ensures SiteWants(p, WantedAt(p, e, s), e, s)
  {
    hide Substitute, CallKey, NeedsSpecialization, LowersStruct, Asks, FindImplementation, FirstNamed, Offers;
    match e.kind
    case Call(target, _) => if target in p.byTarget { CallAsks(p, e, p.byTarget[target], s); }
    case TraitCall(traitName, name, _) =>
      var t := Substitute(e.receiver.value.typ, s);
      var target := FindImplementation(p.impls, traitName, name, t, s).value;
      FindImplementationExactly(p.impls, traitName, name, t, s, target);
      CallAsks(p, e, p.byTarget[target], s);
      var i: nat, j: nat :| DispatchAt(p.impls, traitName, name, t, s, i, j) && p.impls[i].methods[j].1 == target;
      assert TraitTarget(p, e, s, i, j);
    case _ =>
  }

  // What the text emitted for an expression refers to, in its order.
  function Wanted(p: Program, e: Expr, s: Substitution): seq<Wish>
    requires p.Valid()
    decreases e, 1
  {
    WantedAt(p, e, s) + WantedBelow(p, e, Lowered(e), s)
  }

  function WantedBelow(p: Program, e: Expr, es: seq<Expr>, s: Substitution): seq<Wish>
    requires p.Valid() && forall i :: 0 <= i < |es| ==> es[i] < e
    decreases e, 0, |es|
  {
    if es == [] then [] else WantedBelow(p, e, es[..|es| - 1], s) + Wanted(p, es[|es| - 1], s)
  }

  function WantedByAll(p: Program, es: seq<Expr>, s: Substitution): seq<Wish>
    requires p.Valid()
  {
    if es == [] then [] else WantedByAll(p, es[..|es| - 1], s) + Wanted(p, es[|es| - 1], s)
  }

  function WantedByStatement(p: Program, t: Stmt, s: Substitution): seq<Wish>
    requires p.Valid()
    decreases t
  {
    WantedByAll(p, LoweredFrom(t), s) + WantedByBranches(p, t.branches, s)
  }

  function WantedByBranches(p: Program, bs: seq<Block>, s: Substitution): seq<Wish>
    requires p.Valid()
    decreases bs
  {
    if bs == [] then [] else WantedByBranches(p, bs[..|bs| - 1], s) + WantedByBody(p, bs[|bs| - 1].body, s)
  }

  function WantedByBody(p: Program, body: seq<Stmt>, s: Substitution): seq<Wish>
    requires p.Valid()
    decreases body
  {
    if body == [] then [] else WantedByBody(p, body[..|body| - 1], s) + WantedByStatement(p, body[|body| - 1], s)
  }

  function WantedByFunction(p: Program, f: Function, s: Substitution): seq<Wish>
    requires p.Valid()
  {
    WantedByAll(p, f.defaults, s) + WantedByBody(p, f.body, s)
  }

  // ---- the backend ---------------------------------------------------------------------------------

  class Cgen {
    const program: Program
    var functionInstances: seq<Instance>
    var functionInstanceByKey: map<Key, nat>
    var structID: map<Spec, nat>
    var structInstances: seq<Spec>
    var regularFunctions: seq<nat>

    ghost predicate Valid()
      reads this`functionInstances, this`functionInstanceByKey, this`structID, this`structInstances
    {
      program.Valid() && Indexed()
    }

    ghost predicate Indexed()
      reads this`functionInstances, this`functionInstanceByKey, this`structID, this`structInstances
    {
      && |functionInstances| <= MAX_INSTANCES && |functionInstances| == |functionInstanceByKey|
      && (forall i :: 0 <= i < |functionInstances| ==> InstanceOk(functionInstances[i], i))
      && (forall k :: k in functionInstanceByKey ==> functionInstanceByKey[k] < |functionInstances| && functionInstances[functionInstanceByKey[k]].key == k)
      && (forall t :: t in structID ==> structID[t] < |structInstances| && structInstances[structID[t]] == t)
      && (forall i :: 0 <= i < |structInstances| ==> structInstances[i] in structID && structID[structInstances[i]] == i)
    }

    // An instance is found under its key, its ordinal names its symbol, and its substitution is
    // the one its key stands for.
    ghost predicate InstanceOk(x: Instance, i: nat)
      reads this`functionInstanceByKey
    {
      && x.key.function' < |program.functions| && x.function' == x.key.function' && x.ordinal == i
      && x.substitution == KeySubstitution(program, x.key)
      && x.key in functionInstanceByKey && functionInstanceByKey[x.key] == i
    }

    ghost function ThePlan(): Plan
      reads this`structID, this`functionInstanceByKey
    {
      Plan(iset t | t in structID, iset k | k in functionInstanceByKey)
    }

    twostate predicate Grows()
      reads this`functionInstances, this`functionInstanceByKey, this`structID
    {
      && Includes(old(ThePlan()), ThePlan()) && old(functionInstances) <= functionInstances
    }

    constructor (p: Program)
      requires p.Valid()
      ensures program == p && Valid() && regularFunctions == [] && functionInstances == [] && structInstances == []
    {
      program := p;
      functionInstances, functionInstanceByKey, structID, structInstances, regularFunctions := [], map[], map[], [], [];
    }

    method AddStructInstance(t: Spec) returns (ok: bool)
      requires Valid()
      modifies this`structID, this`structInstances
      ensures Valid() && Grows() && functionInstances == old(functionInstances)
      ensures ok <==> LowersStruct(program, t)
      ensures structID.Keys == old(structID.Keys) + (if ok then {t} else {})
      ensures !ok || t in old(structID) ==> structInstances == old(structInstances) && structID == old(structID)
    {
      if !LowersStruct(program, t) { return false; }
      ok := true;
      if t in structID { return; }
      structID := structID[t := |structInstances|];
      structInstances := structInstances + [t];
    }

    // Each argument is checked and bound to its parameter.
    method BindArguments(names: seq<string>, args: seq<Spec>, outer: Substitution, base: Substitution)
      returns (ok: bool, s: Substitution)
      requires |names| == |args|
      ensures ok <==> forall a :: a in args ==> Specialises(program, a, outer)
      ensures ok ==> s == base + Bindings(names, args)
    {
      hide ContainsVariable, KirTypeDepth, Bindings;
      s := base;
      NoBindings();
      assert names[..0] == [] && args[..0] == [];
      for i := 0 to |args|
        invariant s == base + Bindings(names[..i], args[..i])
        invariant forall k :: 0 <= k < i ==> Specialises(program, args[k], outer)
      {
        if ContainsVariable(args[i], Open(outer)) || KirTypeDepth(args[i]) > program.maxTypeDepth {
          assert !Specialises(program, args[i], outer);
          return false, map[];
        }
        OneMoreBinding(names, args, i);
        s := s[names[i] := args[i]];
      }
      assert names[..|names|] == names && args[..|args|] == args;
      ok := true;
    }

    // The instance under a key: looked up, or created when planning.
    method InstanceUnder(key: Key, substitution: Substitution, create: bool) returns (r: Option<Instance>)
      requires Valid() && key.function' < |program.functions| && substitution == KeySubstitution(program, key)
      modifies this`functionInstances, this`functionInstanceByKey
      ensures Valid() && Grows()
      ensures functionInstanceByKey.Keys <= old(functionInstanceByKey.Keys) + {key}
      ensures r.Some? ==> key in functionInstanceByKey && r.value == functionInstances[functionInstanceByKey[key]]
      ensures key in old(functionInstanceByKey) ==> r.Some?
      ensures create && |old(functionInstances)| < MAX_INSTANCES ==> r.Some?
      ensures !create || key in old(functionInstanceByKey) ==> functionInstances == old(functionInstances) && functionInstanceByKey == old(functionInstanceByKey)
    {
      hide KeySubstitution;
      if key in functionInstanceByKey { return Some(functionInstances[functionInstanceByKey[key]]); }
      if !create || |functionInstances| >= MAX_INSTANCES { return None; }
      var instance := Instance.Instance(key.function', |functionInstances|, key, substitution);
      functionInstanceByKey := functionInstanceByKey[key := |functionInstances|];
      functionInstances := functionInstances + [instance];
      r := Some(instance);
    }

    // The key of the instance a call needs, with its substitution.
    method KeyForCall(f: nat, receiver: Option<Spec>, args: seq<Spec>, outer: Substitution)
      returns (k: Option<Key>, substitution: Substitution)
      requires f < |program.functions|
      ensures k == CallKey(program, f, receiver, args, outer)
      ensures k.Some? ==> k.value.function' == f && substitution == KeySubstitution(program, k.value)
    {
      hide Specialises, Bindings, ReceiverParams, Substitute;
      var fun := program.functions[f];
      var own := ReceiverParams(program, fun);
      var receiverArgs: seq<Spec> := [];
      var fits := true;
      substitution := map[];
      if own != [] {
        if receiver.None? { return None, map[]; }
        var t := Substitute(receiver.value, outer);
        if !t.Named? || fun.receiver.value.name != t.name || |t.params| != |own| { return None, map[]; }
        receiverArgs := t.params;
        fits, substitution := BindArguments(own, receiverArgs, outer, map[]);
        if !fits { return None, map[]; }
      }
      if |args| != |fun.typeParams| { return None, map[]; }
      var typeArgs := SubstituteAll(args, outer);
      fits, substitution := BindArguments(fun.typeParams, typeArgs, outer, substitution);
      if !fits { return None, map[]; }
      NoBindings();
      k := Some(Key(f, receiverArgs, typeArgs));
    }

    method FunctionInstanceForCall(f: nat, receiver: Option<Spec>, args: seq<Spec>, outer: Substitution, create: bool)
      returns (r: Option<Instance>)
      requires Valid() && f < |program.functions|
      modifies this`functionInstances, this`functionInstanceByKey
      ensures Valid() && Grows()
      ensures var k := CallKey(program, f, receiver, args, outer);
        && functionInstanceByKey.Keys <= old(functionInstanceByKey.Keys) + (if k.Some? then {k.value} else {})
        && (r.Some? ==> k.Some? && k.value in functionInstanceByKey && r.value == functionInstances[functionInstanceByKey[k.value]])
        && (k.Some? && (k.value in old(functionInstanceByKey) || (create && |old(functionInstances)| < MAX_INSTANCES)) ==> r.Some?)
      ensures !create ==> functionInstances == old(functionInstances) && functionInstanceByKey == old(functionInstanceByKey)
    {
      hide CallKey, KeySubstitution;
      var key, substitution := KeyForCall(f, receiver, args, outer);
      if key.None? { return None; }
      r := InstanceUnder(key.value, substitution, create);
    }

    // The method a trait call dispatches to, once the receiver type is concrete.
    method TraitImplementationMethod(e: Expr, s: Substitution) returns (r: Option<nat>)
      requires Valid() && e.kind.TraitCall?
      modifies this`structID, this`structInstances
      ensures Valid() && Grows() && functionInstances == old(functionInstances) && functionInstanceByKey == old(functionInstanceByKey)
      ensures r.Some? <==> TraitReady(program, e, s)
      ensures r.Some? <==> TraitLowers(program, e, s) && exists i: nat, j: nat :: TraitTarget(program, e, s, i, j)
      ensures r.Some? ==> exists i: nat, j: nat :: TraitTarget(program, e, s, i, j) && program.byTarget[program.impls[i].methods[j].1] == r.value
      ensures r.Some? ==> Callee(program, e, s) == r && Substitute(e.receiver.value.typ, s) in structID
      ensures structID.Keys == old(structID.Keys) + (if TraitLowers(program, e, s) then {Substitute(e.receiver.value.typ, s)} else {})
      ensures TraitLowers(program, e, s) && Substitute(e.receiver.value.typ, s) in old(structID) ==> structID == old(structID) && structInstances == old(structInstances)
    {
      hide ContainsVariable, Substitute, LowersStruct, Indexed, ThePlan;
      TraitTargets(program, e, s);
      if e.receiver.None? { return None; }
      var t := Substitute(e.receiver.value.typ, s);
      if !t.Named? || FindStruct(program.structs, t.name).None? || ContainsVariable(t, Open(s)) {
        if !t.Named? || FindStruct(program.structs, t.name).None? { NotLowered(program, t); }
        return None;
      }
      var ok := AddStructInstance(t);
      if !ok { return None; }
      var impls := program.impls;
      var target := None;
      for i := 0 to |impls|
        invariant FindImplementation(impls[i..], e.kind.traitName, e.kind.method', t, s) == FindImplementation(impls, e.kind.traitName, e.kind.method', t, s)
      {
        if impls[i].traitName == e.kind.traitName && Substitute(impls[i].for', s) == t {
          target := FindMethod(impls[i].methods, e.kind.method');
          if target.Some? {
            return if target.value in program.byTarget then Some(program.byTarget[target.value]) else None;
          }
        }
        assert impls[i..][1..] == impls[i + 1..];
      }
      r := None;
    }

    // Planning for one node. Any plan `q` that already has what the node needs stays an upper
    // bound, so what planning adds is the least that closes the plan.
    method WalkSite(e: Expr, s: Substitution, ghost q: Plan) returns (ok: bool)
      requires Valid()
      modifies this`functionInstances, this`functionInstanceByKey, this`structID, this`structInstances
      ensures Valid() && Grows()
      ensures ok ==> SitePlanned(program, ThePlan(), e, s)
      ensures SitePlanned(program, q, e, s) && Includes(old(ThePlan()), q) ==> Includes(ThePlan(), q) && (Small(q) ==> ok)
    {
      hide Substitute, CallKey, LowersStruct, NeedsSpecialization, TraitReady, Indexed, ThePlan, Small;
      ok := true;
      var callee: Option<nat> := None;
      match e.kind {
        case StructLiteral =>
          ok := WalkStruct(e, s, q);
          return;
        case TraitCall(_, _, _) =>
          callee := PlanTrait(e, s, q);
          if callee.None? { return false; }
        case Call(target, _) =>
          callee := if target in program.byTarget then Some(program.byTarget[target]) else None;
        case _ => return;
      }
      if callee.Some? && NeedsSpecialization(program, program.functions[callee.value]) {
        ok := PlanCall(callee.value, e, s, q);
      }
    }

    method WalkStruct(e: Expr, s: Substitution, ghost q: Plan) returns (ok: bool)
      requires Valid() && e.kind.StructLiteral?
      modifies this`structID, this`structInstances
      ensures Valid() && Grows()
      ensures ok ==> SitePlanned(program, ThePlan(), e, s)
      ensures SitePlanned(program, q, e, s) && Includes(old(ThePlan()), q) ==> Includes(ThePlan(), q) && ok
    {
      hide Substitute, CallKey, LowersStruct, NeedsSpecialization;
      ok := AddStructInstance(Substitute(e.typ, s));
    }

    method PlanTrait(e: Expr, s: Substitution, ghost q: Plan) returns (callee: Option<nat>)
      requires Valid() && e.kind.TraitCall?
      modifies this`structID, this`structInstances
      ensures Valid() && Grows() && functionInstances == old(functionInstances) && functionInstanceByKey == old(functionInstanceByKey)
      ensures callee.Some? ==> TraitReady(program, e, s) && Callee(program, e, s) == callee && Substitute(e.receiver.value.typ, s) in ThePlan().structs
      ensures SitePlanned(program, q, e, s) && Includes(old(ThePlan()), q) ==> Includes(ThePlan(), q) && callee.Some?
    {
      hide Substitute, CallKey, LowersStruct, NeedsSpecialization, TraitLowers, FindImplementation;
      callee := TraitImplementationMethod(e, s);
    }

    method PlanCall(f: nat, e: Expr, s: Substitution, ghost q: Plan) returns (ok: bool)
      requires Valid() && f < |program.functions| && (e.kind.Call? || e.kind.TraitCall?)
      modifies this`functionInstances, this`functionInstanceByKey
      ensures Valid() && Grows()
      ensures var k := CallKey(program, f, ReceiverType(e), e.kind.generics, s);
        && (ok ==> k.Some? && k.value in ThePlan().keys)
        && (k.Some? && k.value in q.keys && Includes(old(ThePlan()), q) ==> Includes(ThePlan(), q) && (Small(q) ==> ok))
    {
      hide CallKey, KeySubstitution, InstanceOk, Small;
      ghost var k := CallKey(program, f, ReceiverType(e), e.kind.generics, s);
      if k.Some? && k.value in q.keys && Includes(ThePlan(), q) && Small(q) {
        RoomIn(functionInstanceByKey.Keys, k.value, q);
      }
      var r := FunctionInstanceForCall(f, ReceiverType(e), e.kind.generics, s, true);
      ok := r.Some?;
    }

    method WalkExpr(e: Expr, s: Substitution, ghost q: Plan) returns (ok: bool)
      requires Valid()
      modifies this`functionInstances, this`functionInstanceByKey, this`structID, this`structInstances
      ensures Valid() && Grows()
      ensures ok ==> ExprPlanned(program, ThePlan(), e, s)
      ensures ExprPlanned(program, q, e, s) && Includes(old(ThePlan()), q) ==> Includes(ThePlan(), q) && (Small(q) ==> ok)
      decreases e, 1
    {
      hide SitePlanned, Small, Indexed, ThePlan, Children;
      ok := WalkSite(e, s, q);
      if !ok { return; }
      ghost var sited := ThePlan();
      ok := WalkChildren(e, s, q);
      if ok { SiteStillPlanned(program, sited, ThePlan(), e, s); }
    }

    method WalkChildren(e: Expr, s: Substitution, ghost q: Plan) returns (ok: bool)
      requires Valid()
      modifies this`functionInstances, this`functionInstanceByKey, this`structID, this`structInstances
      ensures Valid() && Grows()
      ensures ok ==> ExprsPlanned(program, ThePlan(), Children(e), s)
      ensures ExprsPlanned(program, q, Children(e), s) && Includes(old(ThePlan()), q) ==> Includes(ThePlan(), q) && (Small(q) ==> ok)
      decreases e, 0
    {
      hide ExprPlanned, Small, Indexed, ThePlan, Children;
      var children := Children(e);
      for i := 0 to |children|
        invariant Valid() && Grows()
        invariant ExprsPlanned(program, ThePlan(), children[..i], s)
        invariant ExprsPlanned(program, q, children, s) && Includes(old(ThePlan()), q) ==> Includes(ThePlan(), q)
      {
        ghost var before := ThePlan();
        assert children[i] in children;
        ok := WalkExpr(children[i], s, q);
        if !ok { return; }
        ExprsStillPlanned(program, before, ThePlan(), children[..i], s);
      }
      assert children[..|children|] == children;
      ok := true;
    }

    method WalkExprs(es: seq<Expr>, s: Substitution, ghost q: Plan) returns (ok: bool)
      requires Valid()
      modifies this`functionInstances, this`functionInstanceByKey, this`structID, this`structInstances
      ensures Valid() && Grows()
      ensures ok ==> ExprsPlanned(program, ThePlan(), es, s)
      ensures ExprsPlanned(program, q, es, s) && Includes(old(ThePlan()), q) ==> Includes(ThePlan(), q) && (Small(q) ==> ok)
      decreases es
    {
      hide ExprPlanned, Small, Indexed, ThePlan;
      for i := 0 to |es|
        invariant Valid() && Grows()
        invariant ExprsPlanned(program, ThePlan(), es[..i], s)
        invariant ExprsPlanned(program, q, es, s) && Includes(old(ThePlan()), q) ==> Includes(ThePlan(), q)
      {
        ghost var before := ThePlan();
        assert es[i] in es;
        ok := WalkExpr(es[i], s, q);
        if !ok { return; }
        ExprsStillPlanned(program, before, ThePlan(), es[..i], s);
      }
      assert es[..|es|] == es;
      ok := true;
    }

    method WalkStatement(t: Stmt, s: Substitution, ghost q: Plan) returns (ok: bool)
      requires Valid()
      modifies this`functionInstances, this`functionInstanceByKey, this`structID, this`structInstances
      ensures Valid() && Grows()
      ensures ok ==> StmtPlanned(program, ThePlan(), t, s)
      ensures StmtPlanned(program, q, t, s) && Includes(old(ThePlan()), q) ==> Includes(ThePlan(), q) && (Small(q) ==> ok)
      decreases t
    {
      hide ExprPlanned, BodyPlanned, Small, Indexed, ThePlan;
      ok := WalkExprs(t.exprs, s, q);
      if !ok { return; }
      ghost var walked := ThePlan();
      for i := 0 to |t.branches|
        invariant Valid() && Grows() && Includes(walked, ThePlan())
        invariant forall k :: 0 <= k < i ==> BodyPlanned(program, ThePlan(), t.branches[k].body, s)
        invariant StmtPlanned(program, q, t, s) && Includes(old(ThePlan()), q) ==> Includes(ThePlan(), q)
      {
        ghost var before := ThePlan();
        assert t.branches[i] in t.branches;
        ok := WalkStatements(t.branches[i].body, s, q);
        if !ok { return; }
        forall k | 0 <= k < i ensures BodyPlanned(program, ThePlan(), t.branches[k].body, s) {
          BodyStillPlanned(program, before, ThePlan(), t.branches[k].body, s);
        }
      }
      ExprsStillPlanned(program, walked, ThePlan(), t.exprs, s);
    }

    method WalkStatements(body: seq<Stmt>, s: Substitution, ghost q: Plan) returns (ok: bool)
      requires Valid()
      modifies this`functionInstances, this`functionInstanceByKey, this`structID, this`structInstances
      ensures Valid() && Grows()
      ensures ok ==> BodyPlanned(program, ThePlan(), body, s)
      ensures BodyPlanned(program, q, body, s) && Includes(old(ThePlan()), q) ==> Includes(ThePlan(), q) && (Small(q) ==> ok)
      decreases body
    {
      hide StmtPlanned, Small, Indexed, ThePlan;
      for i := 0 to |body|
        invariant Valid() && Grows()
        invariant BodyPlanned(program, ThePlan(), body[..i], s)
        invariant BodyPlanned(program, q, body, s) && Includes(old(ThePlan()), q) ==> Includes(ThePlan(), q)
      {
        ghost var before := ThePlan();
        assert body[i] in body;
        ok := WalkStatement(body[i], s, q);
        if !ok { return; }
        BodyStillPlanned(program, before, ThePlan(), body[..i], s);
      }
      assert body[..|body|] == body;
      ok := true;
    }

    method WalkFunction(f: Function, s: Substitution, ghost q: Plan) returns (ok: bool)
      requires Valid()
      modifies this`functionInstances, this`functionInstanceByKey, this`structID, this`structInstances
      ensures Valid() && Grows()
      ensures ok ==> FunctionPlanned(program, ThePlan(), f, s)
      ensures FunctionPlanned(program, q, f, s) && Includes(old(ThePlan()), q) ==> Includes(ThePlan(), q) && (Small(q) ==> ok)
    {
      hide ExprPlanned, BodyPlanned, Small, Indexed, ThePlan;
      ok := WalkExprs(f.defaults, s, q);
      if !ok { return; }
      ghost var walked := ThePlan();
      ok := WalkStatements(f.body, s, q);
      ExprsStillPlanned(program, walked, ThePlan(), f.defaults, s);
    }

    method PlanStructs(ghost q: Plan) returns (ok: bool)
      requires Valid()
      modifies this`functionInstances, this`functionInstanceByKey, this`structID, this`structInstances
      ensures Valid() && Grows()
      ensures ok ==> StructsPlanned(program, ThePlan(), program.structs)
      ensures StructsPlanned(program, q, program.structs) && Includes(old(ThePlan()), q) ==> Includes(ThePlan(), q) && ok
    {
      hide LowersStruct, Indexed;
      for i := 0 to |program.structs|
        invariant Valid() && Grows() && functionInstanceByKey == old(functionInstanceByKey)
        invariant StructsPlanned(program, ThePlan(), program.structs[..i])
        invariant StructsPlanned(program, q, program.structs) && Includes(old(ThePlan()), q) ==> Includes(ThePlan(), q)
      {
        if program.structs[i].typeParams == [] {
          assert program.structs[i] in program.structs;
          ok := AddStructInstance(Variable(program.structs[i].name));
          if !ok { return; }
        }
      }
      assert program.structs[..|program.structs|] == program.structs;
      ok := true;
    }

    method PlanRegular(ghost q: Plan) returns (ok: bool)
      requires Valid() && regularFunctions == []
      modifies this`functionInstances, this`functionInstanceByKey, this`structID, this`structInstances, this`regularFunctions
      ensures Valid() && Grows()
      ensures ok ==> RegularPlanned(program, ThePlan(), |program.functions|)
      ensures ok ==> regularFunctions == Regular(program, |program.functions|)
      ensures RegularPlanned(program, q, |program.functions|) && Includes(old(ThePlan()), q) ==> Includes(ThePlan(), q) && (Small(q) ==> ok)
    {
      hide FunctionPlanned, Small, Indexed, ThePlan, NeedsSpecialization;
      for i := 0 to |program.functions|
        invariant Valid() && Grows() && regularFunctions == Regular(program, i)
        invariant RegularPlanned(program, ThePlan(), i)
        invariant RegularPlanned(program, q, |program.functions|) && Includes(old(ThePlan()), q) ==> Includes(ThePlan(), q)
      {
        ghost var before := ThePlan();
        var f := program.functions[i];
        if !NeedsSpecialization(program, f) {
          regularFunctions := regularFunctions + [i];
          assert ThePlan() == before;
          ok := WalkFunction(f, map[], q);
          if !ok { return; }
          RegularStillPlanned(program, before, ThePlan(), i);
        }
      }
      ok := true;
    }

    lemma AllKeysPlanned()
      requires Valid() && KeysPlanned(program, ThePlan(), functionInstances)
      ensures KeysClosed(program, ThePlan())
    {
      hide FunctionPlanned, KeySubstitution;
      forall k | k in functionInstanceByKey ensures KeyPlanned(program, ThePlan(), k) {
        assert functionInstances[functionInstanceByKey[k]] in functionInstances;
      }
    }

    method WalkInstance(next: nat, ghost q: Plan) returns (ok: bool)
      requires Valid() && next < |functionInstances| && KeysPlanned(program, ThePlan(), functionInstances[..next])
      modifies this`functionInstances, this`functionInstanceByKey, this`structID, this`structInstances
      ensures Valid() && Grows()
      ensures next < |functionInstances| <= MAX_INSTANCES
      ensures ok ==> KeysPlanned(program, ThePlan(), functionInstances[..next + 1])
      ensures KeysClosed(program, q) && Includes(old(ThePlan()), q) ==> Includes(ThePlan(), q) && (Small(q) ==> ok)
    {
      hide FunctionPlanned, KeySubstitution, Small;
      ghost var before, done := ThePlan(), functionInstances[..next];
      var instance := functionInstances[next];
      assert InstanceOk(instance, next) && instance.key in before.keys;
      ok := WalkFunction(program.functions[instance.function'], instance.substitution, q);
      if ok {
        KeysStillPlanned(program, before, ThePlan(), done);
        assert functionInstances[..next + 1] == done + [instance];
      }
    }

    // The worklist: instances found while an instance's body is walked are appended and walked in
    // their turn.
    method PlanWorklist(ghost q: Plan) returns (ok: bool)
      requires Valid()
      modifies this`functionInstances, this`functionInstanceByKey, this`structID, this`structInstances
      ensures Valid() && Grows()
      ensures ok ==> KeysClosed(program, ThePlan())
      ensures KeysClosed(program, q) && Includes(old(ThePlan()), q) ==> Includes(ThePlan(), q) && (Small(q) ==> ok)
    {
      hide KeyPlanned, Indexed, ThePlan, Small;
      var next := 0;
      while next < |functionInstances|
        invariant Valid() && Grows() && next <= |functionInstances|
        invariant KeysPlanned(program, ThePlan(), functionInstances[..next])
        invariant KeysClosed(program, q) && Includes(old(ThePlan()), q) ==> Includes(ThePlan(), q)
        decreases MAX_INSTANCES - next
      {
        ok := WalkInstance(next, q);
        if !ok { return; }
        next := next + 1;
      }
      assert functionInstances[..next] == functionInstances;
      AllKeysPlanned();
      ok := true;
    }

    method PlanInstances(ghost q: Plan) returns (ok: bool)
      requires Valid() && regularFunctions == [] && functionInstances == [] && structInstances == []
      modifies this`functionInstances, this`functionInstanceByKey, this`structID, this`structInstances, this`regularFunctions
      ensures Valid()
      ensures ok ==> ClosedPlan(program, ThePlan()) && regularFunctions == Regular(program, |program.functions|)
      ensures ClosedPlan(program, q) ==> Includes(ThePlan(), q) && (Small(q) ==> ok)
    {
      hide Small, FunctionPlanned, BodyPlanned, KeyPlanned, StructPlanned, NeedsSpecialization;
      NothingPlanned(q);
      ok := PlanStructs(q);
      if !ok { return; }
      ghost var a := ThePlan();
      ok := PlanRegular(q);
      if !ok { return; }
      ghost var b := ThePlan();
      ok := WalkStatements(program.top, map[], q);
      if !ok { return; }
      ghost var c := ThePlan();
      ok := PlanWorklist(q);
      if ok {
        StructsStillPlanned(program, a, ThePlan());
        RegularStillPlanned(program, b, ThePlan(), |program.functions|);
        BodyStillPlanned(program, c, ThePlan(), program.top, map[]);
      }
    }

    lemma NothingPlanned(q: Plan)
      requires Valid() && functionInstances == [] && structInstances == []
      ensures Includes(ThePlan(), q)
    {}

    // ---- emission ------------------------------------------------------------------------------------

    // The symbol stands for what the call or literal asks for.
    ghost predicate Denotes(symbol: Symbol, wish: Wish)
      reads this`functionInstances, this`structInstances
    {
      match wish
      case StructType(t) => symbol.StructId? && symbol.id < |structInstances| && structInstances[symbol.id] == t
      case Specialised(k) => symbol.Instance? && symbol.ordinal < |functionInstances| && functionInstances[symbol.ordinal].key == k
      case Ordinary(f) => symbol == Symbol.Ordinary(f)
    }

    ghost predicate DenoteAll(symbols: seq<Symbol>, wishes: seq<Wish>)
      reads this`functionInstances, this`structInstances
    {
      |symbols| == |wishes| && forall i :: 0 <= i < |symbols| ==> Denotes(symbols[i], wishes[i])
    }

    method FunctionSymbolForCall(f: nat, e: Expr, s: Substitution) returns (r: Option<Symbol>)
      requires Valid() && f < |program.functions| && (e.kind.Call? || e.kind.TraitCall?) && Callee(program, e, s) == Some(f)
      modifies this`functionInstances, this`functionInstanceByKey
      ensures Valid() && functionInstances == old(functionInstances) && functionInstanceByKey == old(functionInstanceByKey)
      ensures SitePlanned(program, ThePlan(), e, s) ==> r.Some? && DenoteAll([r.value], WantedAt(program, e, s))
    {
      hide CallKey, KeySubstitution, NeedsSpecialization, Substitute, LowersStruct, TraitReady;
      if !NeedsSpecialization(program, program.functions[f]) { return Some(Symbol.Ordinary(f)); }
      var instance := FunctionInstanceForCall(f, ReceiverType(e), e.kind.generics, s, false);
      r := if instance.Some? then Some(Symbol.Instance(instance.value.ordinal)) else None;
    }

    twostate predicate Same()
      reads this`functionInstances, this`functionInstanceByKey, this`structID, this`structInstances
    {
      && functionInstances == old(functionInstances) && functionInstanceByKey == old(functionInstanceByKey)
      && structID == old(structID) && structInstances == old(structInstances)
    }

    method EmitSite(e: Expr, s: Substitution) returns (ok: bool, out: seq<Symbol>)
      requires Valid() && SitePlanned(program, ThePlan(), e, s)
      modifies this`functionInstances, this`functionInstanceByKey, this`structID, this`structInstances
      ensures Valid() && Same()
      ensures ok && DenoteAll(out, WantedAt(program, e, s)) && Placed(out, e, s)
    {
      hide Substitute, CallKey, LowersStruct, NeedsSpecialization, ContainsVariable, FindImplementation, SiteWants;
      SiteAsks(program, ThePlan(), e, s);
      var callee: Option<nat> := None;
      match e.kind {
        case StructLiteral =>
          return true, [StructId(structID[Substitute(e.typ, s)])];
        case TraitCall(_, _, _) =>
          callee := TraitImplementationMethod(e, s);
          if callee.None? { return false, []; }
        case Call(target, _) =>
          if target !in program.byTarget { return true, []; }
          callee := Some(program.byTarget[target]);
        case _ => return true, [];
      }
      var symbol := FunctionSymbolForCall(callee.value, e, s);
      ok := symbol.Some?;
      out := if ok then [symbol.value] else [];
    }

    // The symbols stand for what the node itself asks for.
    ghost predicate Placed(symbols: seq<Symbol>, e: Expr, s: Substitution)
      reads this`functionInstances, this`structInstances
    {
      exists wishes :: SiteWants(program, wishes, e, s) && DenoteAll(symbols, wishes)
    }

    lemma Appended(a: seq<Symbol>, b: seq<Symbol>, wa: seq<Wish>, wb: seq<Wish>)
      requires DenoteAll(a, wa) && DenoteAll(b, wb)
      ensures DenoteAll(a + b, wa + wb)
    {
      hide Denotes;
    }

    method EmitExpr(e: Expr, s: Substitution) returns (ok: bool, out: seq<Symbol>)
      requires Valid() && ExprPlanned(program, ThePlan(), e, s)
      modifies this`functionInstances, this`functionInstanceByKey, this`structID, this`structInstances
      ensures Valid() && Same()
      ensures ok && DenoteAll(out, Wanted(program, e, s))
      ensures exists k: nat :: k <= |out| && Placed(out[..k], e, s)
      decreases e
    {
      hide SitePlanned, WantedAt, Wanted, Indexed, ThePlan, DenoteAll, Placed, Children, Lowered;
      LoweredIsWalked(e);
      ok, out := EmitSite(e, s);
      if !ok { return; }
      ghost var site := out;
      var children := Lowered(e);
      assert children[..0] == [] && WantedAt(program, e, s) + [] == WantedAt(program, e, s);
      for i := 0 to |children|
        invariant Valid() && Same() && DenoteAll(out, WantedAt(program, e, s) + WantedBelow(program, e, children[..i], s))
        invariant site <= out && Placed(site, e, s)
      {
        assert children[i] in children && children[..i + 1][..i] == children[..i];
        var symbols;
        ok, symbols := EmitExpr(children[i], s);
        if !ok { return; }
        Appended(out, symbols, WantedAt(program, e, s) + WantedBelow(program, e, children[..i], s), Wanted(program, children[i], s));
        out := out + symbols;
        Regrouped(WantedAt(program, e, s), WantedBelow(program, e, children[..i], s), Wanted(program, children[i], s));
      }
      assert children[..|children|] == children && out[..|site|] == site;
      WantedUnfolds(e, s);
    }

    lemma Regrouped(a: seq<Wish>, b: seq<Wish>, c: seq<Wish>)
      ensures a + b + c == a + (b + c)
    {}

    lemma WantedUnfolds(e: Expr, s: Substitution)
      requires program.Valid()
      ensures Wanted(program, e, s) == WantedAt(program, e, s) + WantedBelow(program, e, Lowered(e), s)
    {}

    method EmitExprs(es: seq<Expr>, s: Substitution) returns (ok: bool, out: seq<Symbol>)
      requires Valid() && ExprsPlanned(program, ThePlan(), es, s)
      modifies this`functionInstances, this`functionInstanceByKey, this`structID, this`structInstances
      ensures Valid() && Same()
      ensures ok && DenoteAll(out, WantedByAll(program, es, s))
      decreases es
    {
      hide Indexed, ThePlan, Denotes, ExprPlanned, Wanted, Placed;
      out := [];
      for i := 0 to |es|
        invariant Valid() && Same() && DenoteAll(out, WantedByAll(program, es[..i], s))
      {
        assert es[i] in es && es[..i + 1][..i] == es[..i];
        var symbols;
        ok, symbols := EmitExpr(es[i], s);
        if !ok { return; }
        out := out + symbols;
      }
      assert es[..|es|] == es;
      ok := true;
    }

    method EmitStatement(t: Stmt, s: Substitution) returns (ok: bool, out: seq<Symbol>)
      requires Valid() && StmtPlanned(program, ThePlan(), t, s)
      modifies this`functionInstances, this`functionInstanceByKey, this`structID, this`structInstances
      ensures Valid() && Same()
      ensures ok && DenoteAll(out, WantedByStatement(program, t, s))
      decreases t
    {
      hide Indexed, ThePlan, DenoteAll, ExprsPlanned, BodyPlanned, WantedByAll, WantedByBranches;
      LoweredIsPlanned(t, s);
      ok, out := EmitExprs(LoweredFrom(t), s);
      if !ok { return; }
      var branches;
      ok, branches := EmitBranches(t.branches, s);
      Appended(out, branches, WantedByAll(program, LoweredFrom(t), s), WantedByBranches(program, t.branches, s));
      out := out + branches;
    }

    lemma LoweredIsPlanned(t: Stmt, s: Substitution)
      requires program.Valid() && ExprsPlanned(program, ThePlan(), t.exprs, s)
      ensures ExprsPlanned(program, ThePlan(), LoweredFrom(t), s)
    {
      hide ThePlan, SitePlanned, Children, LoweredFrom;
      forall x | x in LoweredFrom(t) ensures ExprPlanned(program, ThePlan(), x, s) {
        if x !in t.exprs {
          var y :| y in t.exprs && x in Children(y);
          assert ExprPlanned(program, ThePlan(), y, s);
        }
      }
    }

    method EmitBranches(bs: seq<Block>, s: Substitution) returns (ok: bool, out: seq<Symbol>)
      requires Valid() && forall b :: b in bs ==> BodyPlanned(program, ThePlan(), b.body, s)
      modifies this`functionInstances, this`functionInstanceByKey, this`structID, this`structInstances
      ensures Valid() && Same()
      ensures ok && DenoteAll(out, WantedByBranches(program, bs, s))
      decreases bs
    {
      hide Indexed, ThePlan, Denotes, BodyPlanned, WantedByBody;
      out := [];
      assert bs[..0] == [];
      for i := 0 to |bs|
        invariant Valid() && Same() && DenoteAll(out, WantedByBranches(program, bs[..i], s))
      {
        assert bs[i] in bs && bs[..i + 1][..i] == bs[..i];
        var symbols;
        ok, symbols := EmitStatements(bs[i].body, s);
        if !ok { return; }
        out := out + symbols;
      }
      assert bs[..|bs|] == bs;
      ok := true;
    }

    method EmitStatements(body: seq<Stmt>, s: Substitution) returns (ok: bool, out: seq<Symbol>)
      requires Valid() && BodyPlanned(program, ThePlan(), body, s)
      modifies this`functionInstances, this`functionInstanceByKey, this`structID, this`structInstances
      ensures Valid() && Same()
      ensures ok && DenoteAll(out, WantedByBody(program, body, s))
      decreases body
    {
      hide Indexed, ThePlan, Denotes, StmtPlanned, WantedByStatement;
      out := [];
      for i := 0 to |body|
        invariant Valid() && Same() && DenoteAll(out, WantedByBody(program, body[..i], s))
      {
        assert body[i] in body && body[..i + 1][..i] == body[..i];
        var symbols;
        ok, symbols := EmitStatement(body[i], s);
        if !ok { return; }
        out := out + symbols;
      }
      assert body[..|body|] == body;
      ok := true;
    }

    method EmitFunction(f: Function, s: Substitution) returns (ok: bool, out: seq<Symbol>)
      requires Valid() && FunctionPlanned(program, ThePlan(), f, s)
      modifies this`functionInstances, this`functionInstanceByKey, this`structID, this`structInstances
      ensures Valid() && Same()
      ensures ok && DenoteAll(out, WantedByFunction(program, f, s))
    {
      hide Indexed, ThePlan, Denotes, ExprsPlanned, BodyPlanned, WantedByAll, WantedByBody;
      ok, out := EmitExprs(f.defaults, s);
      if !ok { return; }
      var symbols;
      ok, symbols := EmitStatements(f.body, s);
      out := out + symbols;
    }

    ghost predicate Emitted(symbols: seq<Symbol>, f: nat, s: Substitution)
      requires program.Valid()
      reads this`functionInstances, this`structInstances
    {
      f < |program.functions| && DenoteAll(symbols, WantedByFunction(program, program.functions[f], s))
    }

    method EmitRegular() returns (ok: bool, out: seq<seq<Symbol>>)
      requires Valid() && RegularPlanned(program, ThePlan(), |program.functions|) && regularFunctions == Regular(program, |program.functions|)
      modifies this`functionInstances, this`functionInstanceByKey, this`structID, this`structInstances
      ensures Valid() && Same() && ok && |out| == |regularFunctions|
      ensures forall i :: 0 <= i < |out| ==> Emitted(out[i], regularFunctions[i], map[])
    {
      hide Denotes, DenoteAll, FunctionPlanned, WantedByFunction, NeedsSpecialization, Indexed, ThePlan;
      out := [];
      RegularInRange(program, |program.functions|);
      for i := 0 to |regularFunctions|
        invariant Valid() && Same() && |out| == i
        invariant forall k :: 0 <= k < i ==> Emitted(out[k], regularFunctions[k], map[])
      {
        assert regularFunctions[i] in regularFunctions;
        var symbols;
        ok, symbols := EmitFunction(program.functions[regularFunctions[i]], map[]);
        if !ok { return; }
        out := out + [symbols];
      }
      ok := true;
    }

    method EmitInstances() returns (ok: bool, out: seq<seq<Symbol>>)
      requires Valid() && KeysClosed(program, ThePlan())
      modifies this`functionInstances, this`functionInstanceByKey, this`structID, this`structInstances
      ensures Valid() && Same() && ok && |out| == |functionInstances|
      ensures forall i :: 0 <= i < |out| ==> Emitted(out[i], functionInstances[i].function', functionInstances[i].substitution)
    {
      hide Denotes, DenoteAll, FunctionPlanned, WantedByFunction, KeySubstitution, Indexed, ThePlan, KeysClosed;
      out := [];
      for i := 0 to |functionInstances|
        invariant Valid() && Same() && |out| == i
        invariant forall k :: 0 <= k < i ==> Emitted(out[k], functionInstances[k].function', functionInstances[k].substitution)
      {
        var instance := functionInstances[i];
        InstancePlanned(i);
        var symbols;
        ok, symbols := EmitFunction(program.functions[instance.function'], instance.substitution);
        if !ok { return; }
        out := out + [symbols];
      }
      ok := true;
    }

    lemma InstancePlanned(i: nat)
      requires Valid() && KeysClosed(program, ThePlan()) && i < |functionInstances|
      ensures functionInstances[i].function' < |program.functions|
      ensures FunctionPlanned(program, ThePlan(), program.functions[functionInstances[i].function'], functionInstances[i].substitution)
    {
      hide FunctionPlanned, KeySubstitution;
      assert InstanceOk(functionInstances[i], i) && functionInstances[i].key in ThePlan().keys;
    }

    // Emission of a planned program: it never meets a call or literal that was not planned, plans
    // nothing new, and every symbol it writes names what its call or literal asks for.
    method EmitProgram() returns (ok: bool, ordinary: seq<seq<Symbol>>, instances: seq<seq<Symbol>>, top: seq<Symbol>)
      requires Valid() && ClosedPlan(program, ThePlan()) && regularFunctions == Regular(program, |program.functions|)
      modifies this`functionInstances, this`functionInstanceByKey, this`structID, this`structInstances
      ensures Valid() && Same() && ok
      ensures |ordinary| == |regularFunctions| && |instances| == |functionInstances|
      ensures forall i :: 0 <= i < |ordinary| ==> Emitted(ordinary[i], regularFunctions[i], map[])
      ensures forall i :: 0 <= i < |instances| ==> Emitted(instances[i], functionInstances[i].function', functionInstances[i].substitution)
      ensures DenoteAll(top, WantedByBody(program, program.top, map[]))
    {
      hide Emitted, DenoteAll, RegularPlanned, KeysClosed, StructsPlanned, BodyPlanned, Indexed, ThePlan;
      ok, ordinary := EmitRegular();
      ok, instances := EmitInstances();
      ok, top := EmitStatements(program.top, map[]);
    }
  }

  // A small plan that has a key not planned yet leaves room for it.
  lemma RoomIn(keys: set<Key>, k: Key, q: Plan)
    requires Small(q) && k in q.keys && forall x :: x in keys ==> x in q.keys
    ensures k in keys || |keys| < MAX_INSTANCES
  {
    var f: set<Key> :| Covers(f, q);
    if k !in keys {
      SubsetSize(keys + {k}, f);
    }
  }

  lemma {:induction false} SubsetSize(a: set<Key>, b: set<Key>)
    requires a <= b
    ensures |a| <= |b|
  {
    if x :| x in a { SubsetSize(a - {x}, b - {x}); }
  }

  lemma NoBindings()
    ensures Bindings([], []) == map[]
  {}
}
