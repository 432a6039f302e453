// Return flow and match exhaustiveness: what the checker accepts, against every run of the statements.
module Flow {

  import opened Wrappers

  // ---- types, values and patterns, as matching sees them ---------------------------------------------

  datatype EnumDecl = EnumDecl(name: string, variants: seq<string>)

  datatype Ty = TBool | TNil | TOption | TResult | TEnum(decl: EnumDecl) | TOther

  datatype Value =
    | VBool(b: bool) | VNil | VOption(present: bool) | VResult(ok: bool) | VEnum(decl: EnumDecl, variant: string)
    | VInt(i: int) | VString(s: string)

  datatype Pattern =
    | Wildcard | PNil | PBool(b: bool) | PInt(i: int) | PString(s: string)
    | PEnum(typeName: string, variant: string) | POption(present: bool) | PResult(ok: bool)

  predicate HasType(v: Value, t: Ty) {
    match t
    case TBool => v.VBool?
    case TNil => v.VNil?
    case TOption => v.VOption?
    case TResult => v.VResult?
    case TEnum(d) => v.VEnum? && v.decl == d && v.variant in d.variants
    case TOther => v.VInt? || v.VString?
  }

  function IndexIn(vs: seq<string>, v: string): (r: Option<nat>)
    ensures r.Some? ==> r.value < |vs| && vs[r.value] == v
    ensures r.None? <==> v !in vs
  {
    if vs == [] then None
    else if vs[0] == v then Some(0)
    else
      match IndexIn(vs[1..], v)
      case Some(i) => Some(i + 1)
      case None => None
  }

  // The position of a variant in the enum of that name, or in the first enum that has it.
  function VariantIndex(enums: seq<EnumDecl>, name: string, v: string): Option<nat> {
    if enums == [] then None
    else if (name == "" || enums[0].name == name) && v in enums[0].variants then IndexIn(enums[0].variants, v)
    else VariantIndex(enums[1..], name, v)
  }

  // The test the C backend emits: enum values carry their type and the position of the variant.
  predicate Selects(enums: seq<EnumDecl>, p: Pattern, v: Value) {
    match p
    case Wildcard => true
    case PNil => v.VNil? || (v.VOption? && !v.present)
    case PBool(b) => v == VBool(b)
    case PInt(i) => v == VInt(i)
    case PString(s) => v == VString(s)
    case PEnum(name, variant) =>
      v.VEnum? && (name == "" || v.decl.name == name)
      && VariantIndex(enums, name, variant).Some? && IndexIn(v.decl.variants, v.variant) == VariantIndex(enums, name, variant)
    case POption(present) => v == VOption(present)
    case PResult(ok) => v == VResult(ok)
  }

  // The test the language promises, and the interpreter makes.
  predicate Matches(p: Pattern, v: Value) {
    match p
    case PEnum(name, variant) => v.VEnum? && v.variant == variant && (name == "" || v.decl.name == name)
    case Wildcard => true
    case PNil => v.VNil? || v == VOption(false)
    case PBool(b) => v == VBool(b)
    case PInt(i) => v == VInt(i)
    case PString(s) => v == VString(s)
    case POption(present) => v == VOption(present)
    case PResult(ok) => v == VResult(ok)
  }

  // Enums have different names, and each its variants once.
  ghost predicate Declared(enums: seq<EnumDecl>) {
    && (forall i, j :: 0 <= i < j < |enums| ==> enums[i].name != enums[j].name)
    && (forall d :: d in enums ==> d.name != "" && forall i, j :: 0 <= i < j < |d.variants| ==> d.variants[i] != d.variants[j])
  }

  lemma {:induction false} QualifiedIndex(enums: seq<EnumDecl>, d: EnumDecl, v: string)
    requires Declared(enums) && d in enums
    ensures VariantIndex(enums, d.name, v) == IndexIn(d.variants, v)
  {
    if enums[0] == d {
      if v !in d.variants { NowhereElse(enums[1..], d.name, v); }
    } else {
      assert d in enums[1..];
      var k :| 0 <= k < |enums| && enums[k] == d;
      QualifiedIndex(enums[1..], d, v);
    }
  }

  lemma {:induction false} NowhereElse(enums: seq<EnumDecl>, name: string, v: string)
    requires name != "" && forall d :: d in enums ==> d.name != name
    ensures VariantIndex(enums, name, v) == None
  {
    if enums != [] { NowhereElse(enums[1..], name, v); }
  }

  lemma SameIndex(vs: seq<string>, a: string, b: string)
    requires a in vs && b in vs && (forall i, j :: 0 <= i < j < |vs| ==> vs[i] != vs[j])
    ensures IndexIn(vs, a) == IndexIn(vs, b) <==> a == b
  {}

  // A pattern the backend tests as the language promises: exactly when it is qualified, or the
  // first enum with the variant has it at the position the value's enum has it, or at a position
  // the value's enum does not have when that lacks the variant.
  predicate Faithful(enums: seq<EnumDecl>, p: Pattern, d: EnumDecl) {
    p.PEnum? && p.typeName == "" ==>
      var i := VariantIndex(enums, "", p.variant);
      if p.variant in d.variants then i == IndexIn(d.variants, p.variant) else i.Some? ==> i.value >= |d.variants|
  }

  lemma {:induction false} IndexAt(vs: seq<string>, i: nat)
    requires i < |vs| && forall j, k :: 0 <= j < k < |vs| ==> vs[j] != vs[k]
    ensures IndexIn(vs, vs[i]) == Some(i)
  {
    if i > 0 { IndexAt(vs[1..], i - 1); }
  }

  lemma BackendTestsAsPromised(enums: seq<EnumDecl>, p: Pattern, d: EnumDecl)
    requires Declared(enums) && d in enums && p.PEnum?
    ensures (forall v :: HasType(v, TEnum(d)) ==> (Selects(enums, p, v) <==> Matches(p, v))) <==> Faithful(enums, p, d)
  {
    if p.typeName == d.name { QualifiedIndex(enums, d, p.variant); }
    forall v | HasType(v, TEnum(d)) && Faithful(enums, p, d) ensures Selects(enums, p, v) <==> Matches(p, v) {
      if p.variant in d.variants { SameIndex(d.variants, v.variant, p.variant); }
    }
    if !Faithful(enums, p, d) {
      var i := VariantIndex(enums, "", p.variant);
      if p.variant !in d.variants { IndexAt(d.variants, i.value); }
      var v := VEnum(d, if p.variant in d.variants then p.variant else d.variants[i.value]);
      assert HasType(v, TEnum(d)) && !(Selects(enums, p, v) <==> Matches(p, v));
    }
  }

  // The other patterns are tested as promised on every value.
  lemma OtherPatternsAgree(enums: seq<EnumDecl>, p: Pattern, v: Value)
    requires !p.PEnum?
    ensures Selects(enums, p, v) <==> Matches(p, v)
    ensures Matches(p, v) <==>
      p == Wildcard || (p == PNil && v in {VNil, VOption(false)}) || (v.VBool? && p == PBool(v.b)) || (v.VInt? && p == PInt(v.i))
      || (v.VString? && p == PString(v.s)) || (v.VOption? && p == POption(v.present)) || (v.VResult? && p == PResult(v.ok))
  {}

  // ---- exhaustiveness ---------------------------------------------------------------------------------

  datatype Arm = Arm(pattern: Pattern, body: seq<Stmt>)

  // An integer or string pattern marks a name no variant has; the number is not needed.
  function Mark(p: Pattern): set<string> {
    match p
    case PBool(b) => {if b then "true" else "false"}
    case PNil => {"nil"}
    case POption(present) => {if present then "true" else "false"}
    case PResult(ok) => {if ok then "ok" else "err"}
    case PEnum(_, variant) => {variant}
    case _ => {}
  }

  predicate WrongKind(t: Ty, p: Pattern) {
    (p.POption? && !t.TOption?) || (p.PResult? && !t.TResult?) || (p.PEnum? && !t.TEnum?)
  }

  predicate Exhaustive(t: Ty, arms: seq<Arm>) {
    (exists a :: a in arms && a.pattern == Wildcard)
    || ((forall a :: a in arms ==> !WrongKind(t, a.pattern)) && Covers(t, Seen(arms)))
  }

  function Seen(arms: seq<Arm>): set<string> {
    if arms == [] then {} else Seen(arms[..|arms| - 1]) + Mark(arms[|arms| - 1].pattern)
  }

  predicate Covers(t: Ty, seen: set<string>) {
    match t
    case TBool => "true" in seen && "false" in seen
    case TNil => "nil" in seen
    case TOption => "true" in seen && "false" in seen
    case TResult => "ok" in seen && "err" in seen
    case TEnum(d) => forall v :: v in d.variants ==> v in seen
    case TOther => false
  }

  lemma {:induction false} SeenBy(arms: seq<Arm>, s: string)
    requires s in Seen(arms)
    ensures exists a :: a in arms && s in Mark(a.pattern)
  {
    var k := |arms| - 1;
    if s in Mark(arms[k].pattern) { assert arms[k] in arms; } else { SeenBy(arms[..k], s); }
  }

  // Some arm is selected, whatever the value.
  ghost predicate Complete(enums: seq<EnumDecl>, t: Ty, arms: seq<Arm>) {
    forall v :: HasType(v, t) ==> Taken(enums, arms, v)
  }

  ghost predicate Taken(enums: seq<EnumDecl>, arms: seq<Arm>, v: Value) { exists a :: a in arms && Selects(enums, a.pattern, v) }

  // No pattern of another type, and enum patterns of the scrutinee's enum written with its name or
  // where the name makes no difference.
  ghost predicate Fitting(enums: seq<EnumDecl>, t: Ty, p: Pattern) {
    && (p.PBool? ==> t.TBool?)
    && (p.PNil? ==> t.TNil? || t.TOption?)
    && (p.PEnum? ==> t.TEnum? && (p.typeName == "" || p.typeName == t.decl.name) && Faithful(enums, p, t.decl))
  }

  // Variants are names: no keyword is one.
  ghost predicate NoKeywords(d: EnumDecl) { forall v :: v in d.variants ==> v !in {"true", "false", "nil"} }

  // A match accepted as exhaustive, with fitting patterns, always selects an arm.
  lemma ExhaustiveIsComplete(enums: seq<EnumDecl>, t: Ty, arms: seq<Arm>)
    requires Exhaustive(t, arms) && forall a :: a in arms ==> Fitting(enums, t, a.pattern)
    requires t.TEnum? ==> Declared(enums) && t.decl in enums && NoKeywords(t.decl)
    ensures Complete(enums, t, arms)
  {
    forall v | HasType(v, t) ensures Taken(enums, arms, v) {
      if exists a :: a in arms && a.pattern == Wildcard {
        var a :| a in arms && a.pattern == Wildcard;
        assert Selects(enums, a.pattern, v);
      } else {
        SeenBy(arms, MarkOf(v));
        var a :| a in arms && MarkOf(v) in Mark(a.pattern);
        assert Fitting(enums, t, a.pattern) && !WrongKind(t, a.pattern);
        FittingSelects(enums, t, a.pattern, v);
      }
    }
  }

  function MarkOf(v: Value): string {
    match v
    case VBool(b) => if b then "true" else "false"
    case VNil => "nil"
    case VOption(p) => if p then "true" else "false"
    case VResult(ok) => if ok then "ok" else "err"
    case VEnum(_, variant) => variant
    case _ => ""
  }

  lemma FittingSelects(enums: seq<EnumDecl>, t: Ty, p: Pattern, v: Value)
    requires HasType(v, t) && !t.TOther? && MarkOf(v) in Mark(p) && Fitting(enums, t, p) && !WrongKind(t, p)
    requires t.TEnum? ==> Declared(enums) && t.decl in enums && NoKeywords(t.decl)
    ensures Selects(enums, p, v)
  {
    match t
    case TEnum(d) =>
      assert p.PEnum?;
      BackendTestsAsPromised(enums, p, d);
    case _ =>
  }

  predicate Written(arms: seq<Arm>, p: Pattern) { exists a :: a in arms && a.pattern == p }

  predicate NamesVariant(arms: seq<Arm>, v: string) { exists a :: a in arms && a.pattern.PEnum? && a.pattern.variant == v }

  lemma {:induction false} MarkSeen(arms: seq<Arm>, a: Arm)
    requires a in arms
    ensures Mark(a.pattern) <= Seen(arms)
  {
    var k := |arms| - 1;
    if arms[k] != a { MarkSeen(arms[..k], a); }
  }

  lemma SeenExactly(arms: seq<Arm>, s: string)
    ensures s in Seen(arms) <==> exists a :: a in arms && s in Mark(a.pattern)
  {
    if s in Seen(arms) { SeenBy(arms, s); }
    forall a | a in arms && s in Mark(a.pattern) ensures s in Seen(arms) { MarkSeen(arms, a); }
  }

  // What the checker takes for exhaustive: a wildcard, or no Option, Result or enum pattern on another
  // type and both Bools, nil, both cases of an Option (a Bool pattern passes for one, nil for none), both
  // of a Result, or every variant of the enum.
  lemma ExhaustiveExactly(t: Ty, arms: seq<Arm>)
    requires t.TEnum? ==> NoKeywords(t.decl)
    ensures Exhaustive(t, arms) <==>
      Written(arms, Wildcard)
      || (&& (forall a :: a in arms ==> (a.pattern.POption? ==> t.TOption?) && (a.pattern.PResult? ==> t.TResult?) && (a.pattern.PEnum? ==> t.TEnum?))
          && match t
             case TBool => Written(arms, PBool(true)) && Written(arms, PBool(false))
             case TNil => Written(arms, PNil)
             case TOption => && (Written(arms, POption(true)) || Written(arms, PBool(true)))
                             && (Written(arms, POption(false)) || Written(arms, PBool(false)))
             case TResult => Written(arms, PResult(true)) && Written(arms, PResult(false))
             case TEnum(d) => forall v :: v in d.variants ==> NamesVariant(arms, v)
             case TOther => false)
  {
    if !Written(arms, Wildcard) && forall a :: a in arms ==> !WrongKind(t, a.pattern) {
      match t
      case TEnum(d) =>
        forall v | v in d.variants ensures v in Seen(arms) <==> NamesVariant(arms, v) {
          SeenExactly(arms, v);
          if v in Seen(arms) {
            var a :| a in arms && v in Mark(a.pattern);
            assert a.pattern.PEnum?;
          }
          if NamesVariant(arms, v) {
            var a :| a in arms && a.pattern.PEnum? && a.pattern.variant == v;
            assert v in Mark(a.pattern);
          }
        }
      case _ => NoVariants(t, arms);
    }
  }

  lemma NoVariants(t: Ty, arms: seq<Arm>)
    requires !t.TEnum? && forall a :: a in arms ==> !WrongKind(t, a.pattern)
    ensures "true" in Seen(arms) <==> Written(arms, PBool(true)) || Written(arms, POption(true))
    ensures "false" in Seen(arms) <==> Written(arms, PBool(false)) || Written(arms, POption(false))
    ensures "nil" in Seen(arms) <==> Written(arms, PNil)
    ensures "ok" in Seen(arms) <==> Written(arms, PResult(true))
    ensures "err" in Seen(arms) <==> Written(arms, PResult(false))
  {
    MarkedBy(arms, "true", PBool(true), POption(true));
    MarkedBy(arms, "false", PBool(false), POption(false));
    MarkedBy(arms, "nil", PNil, PNil);
    MarkedBy(arms, "ok", PResult(true), PResult(true));
    MarkedBy(arms, "err", PResult(false), PResult(false));
  }

  lemma MarkedBy(arms: seq<Arm>, s: string, p: Pattern, q: Pattern)
    requires s in Mark(p) && s in Mark(q) && forall r: Pattern :: s in Mark(r) && !r.PEnum? ==> r == p || r == q
    requires forall a :: a in arms ==> !a.pattern.PEnum?
    ensures s in Seen(arms) <==> Written(arms, p) || Written(arms, q)
  {
    SeenExactly(arms, s);
    if s in Seen(arms) {
      var a :| a in arms && s in Mark(a.pattern);
      assert a.pattern == p || a.pattern == q;
    }
    if Written(arms, p) || Written(arms, q) {
      var a :| a in arms && (a.pattern == p || a.pattern == q);
      assert s in Mark(a.pattern);
    }
  }

  // On an Option the checker also counts Bool patterns, which select no Option: an accepted match
  // is complete exactly when both cases have a pattern of their own.
  predicate HasSome(arms: seq<Arm>) { exists a :: a in arms && (a.pattern == Wildcard || a.pattern == POption(true)) }

  predicate HasNone(arms: seq<Arm>) { exists a :: a in arms && (a.pattern == Wildcard || a.pattern == POption(false) || a.pattern == PNil) }

  lemma OptionCompleteExactly(enums: seq<EnumDecl>, arms: seq<Arm>)
    ensures Complete(enums, TOption, arms) <==> HasSome(arms) && HasNone(arms)
  {
    if Complete(enums, TOption, arms) {
      assert HasType(VOption(true), TOption) && HasType(VOption(false), TOption);
      assert Taken(enums, arms, VOption(true)) && Taken(enums, arms, VOption(false));
    }
    if HasSome(arms) && HasNone(arms) {
      var x :| x in arms && (x.pattern == Wildcard || x.pattern == POption(true));
      var y :| y in arms && (y.pattern == Wildcard || y.pattern == POption(false) || y.pattern == PNil);
      assert Selects(enums, x.pattern, VOption(true)) && Selects(enums, y.pattern, VOption(false));
    }
  }

  // The checker counts an enum pattern by its variant alone, whatever enum it names: an accepted
  // match is complete exactly when every variant has an arm that names this enum, or names none and
  // the first enum with that variant has it at the same position.
  predicate HasVariant(enums: seq<EnumDecl>, d: EnumDecl, arms: seq<Arm>, v: string) {
    exists a :: a in arms && Chooses(enums, d, a.pattern, v)
  }

  predicate Chooses(enums: seq<EnumDecl>, d: EnumDecl, p: Pattern, v: string) {
    || p == Wildcard || p == PEnum(d.name, v)
    || (p.PEnum? && p.typeName == "" && VariantIndex(enums, "", p.variant).Some? && VariantIndex(enums, "", p.variant) == IndexIn(d.variants, v))
  }

  lemma EnumCompleteExactly(enums: seq<EnumDecl>, d: EnumDecl, arms: seq<Arm>)
    requires Declared(enums) && d in enums
    ensures Complete(enums, TEnum(d), arms) <==> forall v :: v in d.variants ==> HasVariant(enums, d, arms, v)
  {
    hide VariantIndex, IndexIn;
    forall p, v | v in d.variants ensures Selects(enums, p, VEnum(d, v)) <==> Chooses(enums, d, p, v) {
      if p.PEnum? && p.typeName == d.name {
        QualifiedIndex(enums, d, p.variant);
        if p.variant in d.variants { SameIndex(d.variants, v, p.variant); } else { Unknown(d.variants, p.variant); Known(d.variants, v); }
      }
    }
    forall v | v in d.variants ensures Taken(enums, arms, VEnum(d, v)) <==> HasVariant(enums, d, arms, v) {
      if Taken(enums, arms, VEnum(d, v)) {
        var a :| a in arms && Selects(enums, a.pattern, VEnum(d, v));
        assert Chooses(enums, d, a.pattern, v);
      }
      if HasVariant(enums, d, arms, v) {
        var a :| a in arms && Chooses(enums, d, a.pattern, v);
        assert Selects(enums, a.pattern, VEnum(d, v));
      }
    }
    if Complete(enums, TEnum(d), arms) {
      forall v | v in d.variants ensures HasVariant(enums, d, arms, v) { assert HasType(VEnum(d, v), TEnum(d)); }
    }
  }

  lemma Known(vs: seq<string>, v: string)
    requires v in vs
    ensures IndexIn(vs, v).Some?
  {}

  lemma Unknown(vs: seq<string>, v: string)
    requires v !in vs
    ensures IndexIn(vs, v).None?
  {}

  // A variant of another enum.
  lemma ForeignVariant()
    ensures var color, shade := EnumDecl("Color", ["Red"]), EnumDecl("Shade", ["Red"]);
      var arms := [Arm(PEnum("Shade", "Red"), [])];
      Exhaustive(TEnum(color), arms) && !Complete([color, shade], TEnum(color), arms)
  {
    var color, shade := EnumDecl("Color", ["Red"]), EnumDecl("Shade", ["Red"]);
    var arms := [Arm(PEnum("Shade", "Red"), [])];
    assert arms[..0] == [] && Seen(arms) == {"Red"};
    assert arms[0].pattern != Wildcard;
    assert HasType(VEnum(color, "Red"), TEnum(color)) && !Taken([color, shade], arms, VEnum(color, "Red"));
  }

  // An unqualified variant that an earlier enum has at another position.
  lemma UnqualifiedVariant()
    ensures var light, color := EnumDecl("Light", ["Off", "Red"]), EnumDecl("Color", ["Red"]);
      var arms := [Arm(PEnum("", "Red"), [])];
      Exhaustive(TEnum(color), arms) && !Complete([light, color], TEnum(color), arms)
  {
    var light, color := EnumDecl("Light", ["Off", "Red"]), EnumDecl("Color", ["Red"]);
    var arms := [Arm(PEnum("", "Red"), [])];
    assert arms[..0] == [] && Seen(arms) == {"Red"};
    assert light.variants[1..] == ["Red"] && IndexIn(light.variants, "Red") == Some(1) && IndexIn(color.variants, "Red") == Some(0);
    assert "Red" == light.variants[1];
    assert VariantIndex([light, color], "", "Red") == Some(1);
    assert HasType(VEnum(color, "Red"), TEnum(color)) && !Taken([light, color], arms, VEnum(color, "Red"));
  }

  lemma BoolPatternsOnOption()
    ensures var arms := [Arm(PBool(true), []), Arm(PBool(false), [])];
      Exhaustive(TOption, arms) && !Complete([], TOption, arms)
  {
    var arms := [Arm(PBool(true), []), Arm(PBool(false), [])];
    assert arms[..1] == [arms[0]] && [arms[0]][..0] == [];
    assert Seen([arms[0]]) == {"true"};
    assert "true" in Seen(arms) && "false" in Seen(arms);
    OptionCompleteExactly([], arms);
  }

  // ---- statements ------------------------------------------------------------------------------------

  datatype Stmt =
    | Plain
    | Unsafe(body: seq<Stmt>)
    | If(thenBody: seq<Stmt>, elseBody: seq<Stmt>)
    | While(body: seq<Stmt>)
    | For(body: seq<Stmt>)
    | Return
    | Break
    | Continue
    | Match(typ: Ty, arms: seq<Arm>)

  datatype Flow = Flow(mustReturn: bool, mayFallthrough: bool, mayBreak: bool, mayContinue: bool)

  function NormalFlow(): Flow { Flow(false, true, false, false) }

  function ReturnFlow(): Flow { Flow(true, false, false, false) }

  // Checking a block; statements after one that cannot fall through are skipped.
  function CheckFrom(flow: Flow, body: seq<Stmt>, loop: nat, inFn: bool): Option<Flow>
    decreases body, 1
  {
    if body == [] then Some(flow)
    else if !flow.mayFallthrough then CheckFrom(flow, body[1..], loop, inFn)
    else
      match CheckStmt(body[0], loop, inFn)
      case None => None
      case Some(f) => CheckFrom(Joined(flow, f), body[1..], loop, inFn)
  }

  function Joined(flow: Flow, f: Flow): Flow {
    Flow(f.mustReturn, f.mayFallthrough, flow.mayBreak || f.mayBreak, flow.mayContinue || f.mayContinue)
  }

  function CheckBlock(body: seq<Stmt>, loop: nat, inFn: bool): Option<Flow>
    decreases body, 2
  {
    CheckFrom(NormalFlow(), body, loop, inFn)
  }

  function CheckStmt(s: Stmt, loop: nat, inFn: bool): Option<Flow>
    decreases s, 3
  {
    match s
    case Plain => Some(NormalFlow())
    case Unsafe(body) => if CheckBlock(body, loop, inFn).Some? then Some(NormalFlow()) else None
    case If(a, b) =>
      (match (CheckBlock(a, loop, inFn), CheckBlock(b, loop, inFn))
       case (Some(x), Some(y)) => Some(Flow(x.mustReturn && y.mustReturn, x.mayFallthrough || y.mayFallthrough, false, false))
       case _ => None)
    case While(body) => if CheckBlock(body, loop + 1, inFn).Some? then Some(NormalFlow()) else None
    case For(body) => if CheckBlock(body, loop + 1, inFn).Some? then Some(NormalFlow()) else None
    case Return => if inFn then Some(ReturnFlow()) else None
    case Break => if loop > 0 then Some(Flow(false, false, true, false)) else None
    case Continue => if loop > 0 then Some(Flow(false, false, false, true)) else None
    case Match(t, arms) =>
      if t.TResult? && (exists a :: a in arms && a.pattern.PNil?) then None
      else if !Exhaustive(t, arms) then None
      else CheckArms(Flow(true, false, false, false), arms, loop, inFn)
  }

  // All arms must return for the match to; one that falls through lets it.
  function CheckArms(flow: Flow, arms: seq<Arm>, loop: nat, inFn: bool): Option<Flow>
    decreases arms, 0
  {
    if arms == [] then Some(flow)
    else
      match CheckBlock(arms[0].body, loop, inFn)
      case None => None
      case Some(f) => CheckArms(Flow(flow.mustReturn && f.mustReturn, flow.mayFallthrough || f.mayFallthrough, false, false), arms[1..], loop, inFn)
  }

  // A function body with a result other than Nil must not finish without returning.
  predicate Accepted(body: seq<Stmt>, resultIsNil: bool) {
    CheckBlock(body, 0, true).Some? && (resultIsNil || CheckBlock(body, 0, true).value.mustReturn)
  }

  // ---- runs -------------------------------------------------------------------------------------------

  datatype Signal = Goes | Traps | Propagates

  // What the expressions of a run do: the k-th evaluation goes on, traps or returns early from the
  // function; its value is a condition's outcome or a scrutinee.
  datatype Oracle = Oracle(signal: nat -> Signal, holds: nat -> bool, value: (nat, Ty) -> Value)

  datatype Exit = Normal | Returned | Broke | Continued | Trapped | NoArm | OutOfFuel

  datatype Run = Run(exit: Exit, at: nat, fuel: nat)

  function Evaluate(o: Oracle, at: nat, fuel: nat): Run {
    match o.signal(at)
    case Goes => Run(Normal, at + 1, fuel)
    case Traps => Run(Trapped, at + 1, fuel)
    case Propagates => Run(Returned, at + 1, fuel)
  }

  function Exec(e: seq<EnumDecl>, body: seq<Stmt>, o: Oracle, at: nat, fuel: nat): (r: Run)
    ensures r.fuel <= fuel && at <= r.at
    decreases fuel, body, 1
  {
    if body == [] then Run(Normal, at, fuel)
    else
      var r := ExecStmt(e, body[0], o, at, fuel);
      if r.exit.Normal? then Exec(e, body[1..], o, r.at, r.fuel) else r
  }

  function ExecStmt(e: seq<EnumDecl>, s: Stmt, o: Oracle, at: nat, fuel: nat): (r: Run)
    ensures r.fuel <= fuel && at <= r.at
    decreases fuel, s, 2
  {
    match s
    case Plain => Evaluate(o, at, fuel)
    case Unsafe(body) => Exec(e, body, o, at, fuel)
    case If(a, b) =>
      var c := Evaluate(o, at, fuel);
      if !c.exit.Normal? then c else if o.holds(at) then Exec(e, a, o, c.at, fuel) else Exec(e, b, o, c.at, fuel)
    case While(body) => ExecLoop(e, s, body, o, at, fuel)
    case For(body) => ExecLoop(e, s, body, o, at, fuel)
    case Return => var c := Evaluate(o, at, fuel); if c.exit.Normal? then c.(exit := Returned) else c
    case Break => Run(Broke, at, fuel)
    case Continue => Run(Continued, at, fuel)
    case Match(t, arms) =>
      var c := Evaluate(o, at, fuel);
      if !c.exit.Normal? then c else ExecArms(e, arms, o.value(at, t), o, c.at, fuel)
  }

  // One more round while the oracle says so. A `for` over a collection is the same with the
  // oracle counting its elements.
  function ExecLoop(e: seq<EnumDecl>, ghost s: Stmt, body: seq<Stmt>, o: Oracle, at: nat, fuel: nat): (r: Run)
    requires (s.While? || s.For?) && body == s.body
    ensures r.fuel <= fuel && at <= r.at
    decreases fuel, s, 1
  {
    var c := Evaluate(o, at, fuel);
    if !c.exit.Normal? then c
    else if !o.holds(at) then c
    else if fuel == 0 then Run(OutOfFuel, c.at, 0)
    else
      var r := Exec(e, body, o, c.at, fuel - 1);
      if r.exit.Broke? then r.(exit := Normal)
      else if r.exit.Normal? || r.exit.Continued? then ExecLoop(e, s, body, o, r.at, r.fuel)
      else r
  }

  // The first arm whose test holds.
  function ExecArms(e: seq<EnumDecl>, arms: seq<Arm>, v: Value, o: Oracle, at: nat, fuel: nat): (r: Run)
    ensures r.fuel <= fuel && at <= r.at
    decreases fuel, arms, 0
  {
    if arms == [] then Run(NoArm, at, fuel)
    else if Selects(e, arms[0].pattern, v) then Exec(e, arms[0].body, o, at, fuel)
    else ExecArms(e, arms[1..], v, o, at, fuel)
  }

  // How single statements end, and loops whose body is one `break` or `continue`.
  lemma ExitsMean(e: seq<EnumDecl>, o: Oracle, at: nat, fuel: nat)
    ensures Exec(e, [Plain], o, at, fuel).exit == match o.signal(at) { case Goes => Normal case Traps => Trapped case Propagates => Returned }
    ensures Exec(e, [Return], o, at, fuel).exit == if o.signal(at).Traps? then Trapped else Returned
    ensures o.signal(at) == Goes && o.holds(at) && fuel > 0 ==> Exec(e, [While([Break])], o, at, fuel).exit == Normal
    ensures (forall n: nat :: n >= at ==> o.signal(n) == Goes && o.holds(n)) ==> Exec(e, [While([Continue])], o, at, fuel).exit == OutOfFuel
  {
    assert [Plain][1..] == [] && [Return][1..] == [] && [Break][1..] == [] && [While([Break])][1..] == [] && [While([Continue])][1..] == [];
    assert Exec(e, [], o, at + 1, fuel).exit == Normal;
    if fuel > 0 { assert Exec(e, [Break], o, at + 1, fuel - 1).exit == Broke; }
    var r := ExecLoop(e, While([Break]), [Break], o, at, fuel);
    assert ExecStmt(e, While([Break]), o, at, fuel) == r;
    if forall n: nat :: n >= at ==> o.signal(n) == Goes && o.holds(n) {
      Spins(e, o, at, fuel);
      assert ExecStmt(e, While([Continue]), o, at, fuel) == ExecLoop(e, While([Continue]), [Continue], o, at, fuel);
    }
  }

  lemma {:induction false} Spins(e: seq<EnumDecl>, o: Oracle, at: nat, fuel: nat)
    requires forall n: nat :: n >= at ==> o.signal(n) == Goes && o.holds(n)
    ensures ExecLoop(e, While([Continue]), [Continue], o, at, fuel).exit == OutOfFuel
    decreases fuel
  {
    if fuel > 0 {
      assert [Continue][1..] == [];
      assert Exec(e, [Continue], o, at + 1, fuel - 1) == Run(Continued, at + 1, fuel - 1);
      Spins(e, o, at + 1, fuel - 1);
    }
  }

  // ---- soundness --------------------------------------------------------------------------------------

  // What a flow claims of an exit: a block that must return may still leave a loop early, because
  // `if` and `match` forget that, but only inside one.
  ghost predicate Describes(f: Flow, exit: Exit, loop: nat) {
    && (f.mustReturn ==> !f.mayFallthrough)
    && (exit == Normal ==> f.mayFallthrough)
    && (exit == Broke || exit == Continued ==> loop > 0)
  }

  lemma {:induction false} BlockSound(e: seq<EnumDecl>, flow: Flow, body: seq<Stmt>, loop: nat, inFn: bool, o: Oracle, at: nat, fuel: nat)
    requires CheckFrom(flow, body, loop, inFn).Some? && flow.mayFallthrough && !flow.mustReturn
    ensures Describes(CheckFrom(flow, body, loop, inFn).value, Exec(e, body, o, at, fuel).exit, loop)
    decreases fuel, body, 1
  {
    if body != [] {
      var f := CheckStmt(body[0], loop, inFn).value;
      var r := ExecStmt(e, body[0], o, at, fuel);
      StmtSound(e, body[0], loop, inFn, o, at, fuel);
      if f.mayFallthrough {
        if r.exit == Normal {
          BlockSound(e, Joined(flow, f), body[1..], loop, inFn, o, r.at, r.fuel);
        } else {
          MustIsNotFall(Joined(flow, f), body[1..], loop, inFn);
        }
      } else {
        Skipped(Joined(flow, f), body[1..], loop, inFn);
      }
    }
  }

  lemma {:induction false} Skipped(flow: Flow, body: seq<Stmt>, loop: nat, inFn: bool)
    requires !flow.mayFallthrough
    ensures CheckFrom(flow, body, loop, inFn) == Some(flow)
  {
    if body != [] { Skipped(flow, body[1..], loop, inFn); }
  }

  lemma {:induction false} MustIsNotFall(flow: Flow, body: seq<Stmt>, loop: nat, inFn: bool)
    requires CheckFrom(flow, body, loop, inFn).Some? && (flow.mustReturn ==> !flow.mayFallthrough)
    ensures var f := CheckFrom(flow, body, loop, inFn).value; f.mustReturn ==> !f.mayFallthrough
    decreases body, 1
  {
    if body != [] {
      if flow.mayFallthrough {
        StmtMustIsNotFall(body[0], loop, inFn);
        MustIsNotFall(Joined(flow, CheckStmt(body[0], loop, inFn).value), body[1..], loop, inFn);
      } else {
        MustIsNotFall(flow, body[1..], loop, inFn);
      }
    }
  }

  lemma {:induction false} StmtMustIsNotFall(s: Stmt, loop: nat, inFn: bool)
    requires CheckStmt(s, loop, inFn).Some?
    ensures var f := CheckStmt(s, loop, inFn).value; f.mustReturn ==> !f.mayFallthrough
    decreases s, 2
  {
    match s
    case If(a, b) =>
      MustIsNotFall(NormalFlow(), a, loop, inFn);
      MustIsNotFall(NormalFlow(), b, loop, inFn);
    case Match(t, arms) => ArmsMustIsNotFall(Flow(true, false, false, false), arms, loop, inFn);
    case _ =>
  }

  lemma {:induction false} ArmsMustIsNotFall(flow: Flow, arms: seq<Arm>, loop: nat, inFn: bool)
    requires CheckArms(flow, arms, loop, inFn).Some? && (flow.mustReturn ==> !flow.mayFallthrough)
    ensures var f := CheckArms(flow, arms, loop, inFn).value; f.mustReturn ==> !f.mayFallthrough
    ensures flow.mayFallthrough ==> CheckArms(flow, arms, loop, inFn).value.mayFallthrough
    decreases arms, 0
  {
    if arms != [] {
      var f := CheckBlock(arms[0].body, loop, inFn).value;
      MustIsNotFall(NormalFlow(), arms[0].body, loop, inFn);
      ArmsMustIsNotFall(Flow(flow.mustReturn && f.mustReturn, flow.mayFallthrough || f.mayFallthrough, false, false), arms[1..], loop, inFn);
    }
  }

  lemma {:induction false} StmtSound(e: seq<EnumDecl>, s: Stmt, loop: nat, inFn: bool, o: Oracle, at: nat, fuel: nat)
    requires CheckStmt(s, loop, inFn).Some?
    ensures Describes(CheckStmt(s, loop, inFn).value, ExecStmt(e, s, o, at, fuel).exit, loop)
    decreases fuel, s, 2
  {
    StmtMustIsNotFall(s, loop, inFn);
    match s
    case Unsafe(body) => BlockSound(e, NormalFlow(), body, loop, inFn, o, at, fuel);
    case If(a, b) =>
      BlockSound(e, NormalFlow(), if o.holds(at) then a else b, loop, inFn, o, at + 1, fuel);
    case While(body) => LoopSound(e, s, body, loop, inFn, o, at, fuel);
    case For(body) => LoopSound(e, s, body, loop, inFn, o, at, fuel);
    case Match(t, arms) =>
      if o.signal(at) == Goes { ArmsSound(e, Flow(true, false, false, false), arms, o.value(at, t), loop, inFn, o, at + 1, fuel); }
    case _ =>
  }

  lemma {:induction false} LoopSound(e: seq<EnumDecl>, s: Stmt, body: seq<Stmt>, loop: nat, inFn: bool, o: Oracle, at: nat, fuel: nat)
    requires (s.While? || s.For?) && body == s.body && CheckBlock(body, loop + 1, inFn).Some?
    ensures var exit := ExecLoop(e, s, body, o, at, fuel).exit; exit != Broke && exit != Continued
    decreases fuel, s, 1
  {
    if o.signal(at) == Goes && o.holds(at) && fuel > 0 {
      var r := Exec(e, body, o, at + 1, fuel - 1);
      if r.exit == Normal || r.exit == Continued { LoopSound(e, s, body, loop, inFn, o, r.at, r.fuel); }
    }
  }

  lemma {:induction false} ArmsSound(e: seq<EnumDecl>, flow: Flow, arms: seq<Arm>, v: Value, loop: nat, inFn: bool, o: Oracle, at: nat, fuel: nat)
    requires CheckArms(flow, arms, loop, inFn).Some? && (flow.mustReturn ==> !flow.mayFallthrough)
    ensures Describes(CheckArms(flow, arms, loop, inFn).value, ExecArms(e, arms, v, o, at, fuel).exit, loop)
    decreases fuel, arms, 0
  {
    ArmsMustIsNotFall(flow, arms, loop, inFn);
    if arms != [] {
      var f := CheckBlock(arms[0].body, loop, inFn).value;
      MustIsNotFall(NormalFlow(), arms[0].body, loop, inFn);
      var next := Flow(flow.mustReturn && f.mustReturn, flow.mayFallthrough || f.mayFallthrough, false, false);
      ArmsMustIsNotFall(next, arms[1..], loop, inFn);
      if Selects(e, arms[0].pattern, v) {
        BlockSound(e, NormalFlow(), arms[0].body, loop, inFn, o, at, fuel);
      } else {
        ArmsSound(e, next, arms[1..], v, loop, inFn, o, at, fuel);
      }
    }
  }

  // An accepted function with a result never finishes without returning, in any run.
  lemma AcceptedReturns(e: seq<EnumDecl>, body: seq<Stmt>, o: Oracle, at: nat, fuel: nat)
    requires Accepted(body, false)
    ensures Exec(e, body, o, at, fuel).exit in {Returned, Trapped, NoArm, OutOfFuel}
  {
    BlockSound(e, NormalFlow(), body, 0, true, o, at, fuel);
  }

  // Evaluation gives values of the checked type.
  ghost predicate TypeSafe(o: Oracle) {
    forall n: nat, t: Ty :: o.signal(n) == Goes && (t.TEnum? ==> t.decl.variants != []) ==> HasType(o.value(n, t), t)
  }

  ghost predicate FittingMatch(e: seq<EnumDecl>, t: Ty, arms: seq<Arm>) {
    && (t.TEnum? ==> t.decl in e && NoKeywords(t.decl) && t.decl.variants != [])
    && forall a :: a in arms ==> Fitting(e, t, a.pattern)
  }

  ghost predicate FittingBody(e: seq<EnumDecl>, body: seq<Stmt>)
    decreases body
  {
    forall s :: s in body ==> FittingStmt(e, s)
  }

  ghost predicate FittingStmt(e: seq<EnumDecl>, s: Stmt)
    decreases s
  {
    match s
    case Unsafe(body) => FittingBody(e, body)
    case If(a, b) => FittingBody(e, a) && FittingBody(e, b)
    case While(body) => FittingBody(e, body)
    case For(body) => FittingBody(e, body)
    case Match(t, arms) => FittingMatch(e, t, arms) && forall a :: a in arms ==> FittingBody(e, a.body)
    case _ => true
  }

  lemma {:induction false} ArmFound(e: seq<EnumDecl>, arms: seq<Arm>, v: Value) returns (k: nat)
    requires Taken(e, arms, v)
    ensures k < |arms| && Selects(e, arms[k].pattern, v)
    ensures forall o, at, fuel :: ExecArms(e, arms, v, o, at, fuel) == Exec(e, arms[k].body, o, at, fuel)
  {
    if Selects(e, arms[0].pattern, v) {
      k := 0;
    } else {
      var a :| a in arms && Selects(e, a.pattern, v);
      assert a in arms[1..];
      k := ArmFound(e, arms[1..], v);
      k := k + 1;
    }
  }

  lemma {:induction false} ArmChecked(flow: Flow, arms: seq<Arm>, loop: nat, inFn: bool, k: nat)
    requires CheckArms(flow, arms, loop, inFn).Some? && k < |arms|
    ensures CheckBlock(arms[k].body, loop, inFn).Some?
    decreases arms, 0
  {
    if k > 0 {
      var f := CheckBlock(arms[0].body, loop, inFn).value;
      ArmChecked(Flow(flow.mustReturn && f.mustReturn, flow.mayFallthrough || f.mayFallthrough, false, false), arms[1..], loop, inFn, k - 1);
    }
  }

  // In a checked block whose patterns fit, no run meets a match without an arm for its value.
  lemma {:induction false} BlockHasArms(e: seq<EnumDecl>, flow: Flow, body: seq<Stmt>, loop: nat, inFn: bool, o: Oracle, at: nat, fuel: nat)
    requires CheckFrom(flow, body, loop, inFn).Some? && flow.mayFallthrough
    requires Declared(e) && TypeSafe(o) && FittingBody(e, body)
    ensures Exec(e, body, o, at, fuel).exit != NoArm
    decreases fuel, body, 1
  {
    if body != [] {
      var f := CheckStmt(body[0], loop, inFn).value;
      var r := ExecStmt(e, body[0], o, at, fuel);
      assert body[0] in body;
      StmtSound(e, body[0], loop, inFn, o, at, fuel);
      StmtHasArms(e, body[0], loop, inFn, o, at, fuel);
      if r.exit == Normal { BlockHasArms(e, Joined(flow, f), body[1..], loop, inFn, o, r.at, r.fuel); }
    }
  }

  lemma {:induction false} StmtHasArms(e: seq<EnumDecl>, s: Stmt, loop: nat, inFn: bool, o: Oracle, at: nat, fuel: nat)
    requires CheckStmt(s, loop, inFn).Some? && Declared(e) && TypeSafe(o) && FittingStmt(e, s)
    ensures ExecStmt(e, s, o, at, fuel).exit != NoArm
    decreases fuel, s, 2
  {
    match s
    case Unsafe(body) => BlockHasArms(e, NormalFlow(), body, loop, inFn, o, at, fuel);
    case If(a, b) => BlockHasArms(e, NormalFlow(), if o.holds(at) then a else b, loop, inFn, o, at + 1, fuel);
    case While(body) => LoopHasArms(e, s, body, loop, inFn, o, at, fuel);
    case For(body) => LoopHasArms(e, s, body, loop, inFn, o, at, fuel);
    case Match(t, arms) =>
      if o.signal(at) == Goes {
        ExhaustiveIsComplete(e, t, arms);
        assert Taken(e, arms, o.value(at, t));
        var k := ArmFound(e, arms, o.value(at, t));
        ArmChecked(Flow(true, false, false, false), arms, loop, inFn, k);
        assert arms[k] in arms;
        BlockHasArms(e, NormalFlow(), arms[k].body, loop, inFn, o, at + 1, fuel);
      }
    case _ =>
  }

  lemma {:induction false} LoopHasArms(e: seq<EnumDecl>, s: Stmt, body: seq<Stmt>, loop: nat, inFn: bool, o: Oracle, at: nat, fuel: nat)
    requires (s.While? || s.For?) && body == s.body && CheckBlock(body, loop + 1, inFn).Some?
    requires Declared(e) && TypeSafe(o) && FittingBody(e, body)
    ensures ExecLoop(e, s, body, o, at, fuel).exit != NoArm
    decreases fuel, s, 1
  {
    if o.signal(at) == Goes && o.holds(at) && fuel > 0 {
      BlockHasArms(e, NormalFlow(), body, loop + 1, inFn, o, at + 1, fuel - 1);
      var r := Exec(e, body, o, at + 1, fuel - 1);
      if r.exit == Normal || r.exit == Continued { LoopHasArms(e, s, body, loop, inFn, o, r.at, r.fuel); }
    }
  }

  // An accepted function whose patterns fit always returns, traps in an expression, or runs on.
  lemma AcceptedFunctionReturns(e: seq<EnumDecl>, body: seq<Stmt>, o: Oracle, at: nat, fuel: nat)
    requires Accepted(body, false) && Declared(e) && TypeSafe(o) && FittingBody(e, body)
    ensures Exec(e, body, o, at, fuel).exit in {Returned, Trapped, OutOfFuel}
  {
    AcceptedReturns(e, body, o, at, fuel);
    BlockHasArms(e, NormalFlow(), body, 0, true, o, at, fuel);
  }

  // ---- what is accepted -------------------------------------------------------------------------------

  // What a statement leaves open, read off its branches and arms: its end is reached, it returns.
  predicate Falls(s: Stmt)
    decreases s
  {
    match s
    case If(a, b) => FallsBody(a) || FallsBody(b)
    case Match(_, arms) => exists a :: a in arms && FallsBody(a.body)
    case Return => false
    case Break => false
    case Continue => false
    case _ => true
  }

  predicate FallsBody(body: seq<Stmt>)
    decreases body
  {
    forall s :: s in body ==> Falls(s)
  }

  predicate Reached(body: seq<Stmt>, k: nat)
    requires k <= |body|
  {
    forall j :: 0 <= j < k ==> Falls(body[j])
  }

  predicate Returns(s: Stmt)
    decreases s
  {
    match s
    case Return => true
    case If(a, b) => ReturnsBody(a) && ReturnsBody(b)
    case Match(_, arms) => forall a :: a in arms ==> ReturnsBody(a.body)
    case _ => false
  }

  predicate ReturnsBody(body: seq<Stmt>)
    decreases body
  {
    exists k: nat :: k < |body| && Reached(body, k) && Returns(body[k])
  }

  // A `break` or `continue` of the block itself is reached.
  predicate Leaves(body: seq<Stmt>, s: Stmt) { exists k: nat :: k < |body| && Reached(body, k) && body[k] == s }

  // A `return` stands in a function, a `break` or `continue` in a loop, a match is exhaustive and does not
  // test a Result for nil: of every statement that can be reached.
  predicate Placed(s: Stmt, loop: nat, inFn: bool)
    decreases s
  {
    match s
    case Plain => true
    case Unsafe(body) => PlacedBody(body, loop, inFn)
    case If(a, b) => PlacedBody(a, loop, inFn) && PlacedBody(b, loop, inFn)
    case While(body) => PlacedBody(body, loop + 1, inFn)
    case For(body) => PlacedBody(body, loop + 1, inFn)
    case Return => inFn
    case Break => loop > 0
    case Continue => loop > 0
    case Match(t, arms) =>
      && (t.TResult? ==> !Written(arms, PNil)) && Exhaustive(t, arms)
      && forall a :: a in arms ==> PlacedBody(a.body, loop, inFn)
  }

  predicate PlacedBody(body: seq<Stmt>, loop: nat, inFn: bool)
    decreases body
  {
    forall k: nat :: k < |body| && Reached(body, k) ==> Placed(body[k], loop, inFn)
  }

  // The checker accepts a block exactly when its reachable statements are well placed, and the flow it
  // reports is the block's.
  lemma {:induction false} CheckedExactly(body: seq<Stmt>, loop: nat, inFn: bool)
    ensures CheckBlock(body, loop, inFn).Some? <==> PlacedBody(body, loop, inFn)
    ensures PlacedBody(body, loop, inFn) ==>
      CheckBlock(body, loop, inFn).value == Flow(ReturnsBody(body), FallsBody(body), Leaves(body, Break), Leaves(body, Continue))
    decreases body, 2
  {
    hide FallsBody, ReturnsBody, PlacedBody, Leaves;
    FromExactly(NormalFlow(), body, loop, inFn);
  }

  lemma {:induction false} FromExactly(flow: Flow, body: seq<Stmt>, loop: nat, inFn: bool)
    requires flow.mayFallthrough && !flow.mustReturn
    ensures CheckFrom(flow, body, loop, inFn).Some? <==> PlacedBody(body, loop, inFn)
    ensures PlacedBody(body, loop, inFn) ==>
      CheckFrom(flow, body, loop, inFn).value
      == Flow(ReturnsBody(body), FallsBody(body), flow.mayBreak || Leaves(body, Break), flow.mayContinue || Leaves(body, Continue))
    decreases body, 1
  {
    if body != [] {
      hide CheckStmt, FallsBody, ReturnsBody, PlacedBody, Leaves, Falls, Returns, Placed;
      var s, rest := body[0], body[1..];
      StmtExactly(s, loop, inFn);
      FallsSplits(body);
      ReturnsSplits(body);
      PlacedSplits(body, loop, inFn);
      LeavesSplits(body, Break);
      LeavesSplits(body, Continue);
      if Placed(s, loop, inFn) {
        var next := Joined(flow, CheckStmt(s, loop, inFn).value);
        assert CheckFrom(flow, body, loop, inFn) == CheckFrom(next, rest, loop, inFn);
        hide CheckFrom;
        if Falls(s) {
          ReturnDoesNotFall(s);
          FromExactly(next, rest, loop, inFn);
        } else {
          Skipped(next, rest, loop, inFn);
        }
      }
    }
  }

  lemma FallsSplits(body: seq<Stmt>)
    requires body != []
    ensures FallsBody(body) <==> Falls(body[0]) && FallsBody(body[1..])
  {
    hide Falls;
    assert body == [body[0]] + body[1..];
  }

  lemma ReachedSplits(body: seq<Stmt>, k: nat)
    requires 0 < k <= |body|
    ensures Reached(body, k) <==> Falls(body[0]) && Reached(body[1..], k - 1)
  {
    hide Falls;
    if Falls(body[0]) && Reached(body[1..], k - 1) {
      forall j | 0 <= j < k ensures Falls(body[j]) { if j > 0 { assert body[j] == body[1..][j - 1]; } }
    }
    if Reached(body, k) {
      forall j | 0 <= j < k - 1 ensures Falls(body[1..][j]) { assert body[1..][j] == body[j + 1]; }
    }
  }

  lemma ReturnsSplits(body: seq<Stmt>)
    requires body != []
    ensures ReturnsBody(body) <==> Returns(body[0]) || (Falls(body[0]) && ReturnsBody(body[1..]))
  {
    hide Falls, Returns, Reached;
    AtStart(body);
    if ReturnsBody(body) {
      var k: nat :| k < |body| && Reached(body, k) && Returns(body[k]);
      if k > 0 { ReachedSplits(body, k); assert Returns(body[1..][k - 1]); }
    }
    if Falls(body[0]) && ReturnsBody(body[1..]) {
      var k: nat :| k < |body[1..]| && Reached(body[1..], k) && Returns(body[1..][k]);
      ReachedSplits(body, k + 1);
      assert Returns(body[k + 1]);
    }
  }

  lemma LeavesSplits(body: seq<Stmt>, s: Stmt)
    requires body != []
    ensures Leaves(body, s) <==> body[0] == s || (Falls(body[0]) && Leaves(body[1..], s))
  {
    hide Falls, Reached;
    AtStart(body);
    if Leaves(body, s) {
      var k: nat :| k < |body| && Reached(body, k) && body[k] == s;
      if k > 0 { ReachedSplits(body, k); assert body[1..][k - 1] == s; }
    }
    if Falls(body[0]) && Leaves(body[1..], s) {
      var k: nat :| k < |body[1..]| && Reached(body[1..], k) && body[1..][k] == s;
      ReachedSplits(body, k + 1);
      assert body[k + 1] == s;
    }
  }

  lemma PlacedSplits(body: seq<Stmt>, loop: nat, inFn: bool)
    requires body != []
    ensures PlacedBody(body, loop, inFn) <==> Placed(body[0], loop, inFn) && (Falls(body[0]) ==> PlacedBody(body[1..], loop, inFn))
  {
    hide Falls, Placed, Reached;
    AtStart(body);
    if PlacedBody(body, loop, inFn) && Falls(body[0]) {
      forall k: nat | k < |body[1..]| && Reached(body[1..], k) ensures Placed(body[1..][k], loop, inFn) {
        ReachedSplits(body, k + 1);
        assert Placed(body[k + 1], loop, inFn);
      }
    }
    if Placed(body[0], loop, inFn) && (Falls(body[0]) ==> PlacedBody(body[1..], loop, inFn)) {
      forall k: nat | k < |body| && Reached(body, k) ensures Placed(body[k], loop, inFn) {
        if k > 0 { ReachedSplits(body, k); assert Placed(body[1..][k - 1], loop, inFn); }
      }
    }
  }

  lemma AtStart(body: seq<Stmt>)
    ensures Reached(body, 0)
  {}

  lemma {:induction false} ReturnDoesNotFall(s: Stmt)
    ensures Returns(s) ==> !Falls(s)
    decreases s, 0
  {
    hide ReturnsBody, FallsBody;
    match s
    case If(a, b) =>
      BodyReturnsOrFalls(a);
      BodyReturnsOrFalls(b);
    case Match(_, arms) =>
      forall a | a in arms ensures ReturnsBody(a.body) ==> !FallsBody(a.body) { BodyReturnsOrFalls(a.body); }
    case _ =>
  }

  lemma {:induction false} BodyReturnsOrFalls(body: seq<Stmt>)
    ensures ReturnsBody(body) ==> !FallsBody(body)
    decreases body, 1
  {
    if ReturnsBody(body) {
      var k: nat :| k < |body| && Reached(body, k) && Returns(body[k]);
      ReturnDoesNotFall(body[k]);
      assert body[k] in body;
    }
  }

  lemma {:induction false} StmtExactly(s: Stmt, loop: nat, inFn: bool)
    ensures CheckStmt(s, loop, inFn).Some? <==> Placed(s, loop, inFn)
    ensures Placed(s, loop, inFn) ==>
      CheckStmt(s, loop, inFn).value == Flow(Returns(s), Falls(s), s.Break?, s.Continue?)
    decreases s, 2
  {
    hide CheckFrom, PlacedBody, FallsBody, ReturnsBody;
    match s
    case Unsafe(body) => CheckedExactly(body, loop, inFn);
    case If(a, b) =>
      CheckedExactly(a, loop, inFn);
      CheckedExactly(b, loop, inFn);
    case While(body) => CheckedExactly(body, loop + 1, inFn);
    case For(body) => CheckedExactly(body, loop + 1, inFn);
    case Match(t, arms) => ArmsExactly(Flow(true, false, false, false), arms, loop, inFn);
    case _ =>
  }

  lemma {:induction false} ArmsExactly(flow: Flow, arms: seq<Arm>, loop: nat, inFn: bool)
    requires !flow.mayBreak && !flow.mayContinue
    ensures CheckArms(flow, arms, loop, inFn).Some? <==> forall a :: a in arms ==> PlacedBody(a.body, loop, inFn)
    ensures CheckArms(flow, arms, loop, inFn).Some? ==>
      CheckArms(flow, arms, loop, inFn).value
      == Flow(flow.mustReturn && forall a :: a in arms ==> ReturnsBody(a.body), flow.mayFallthrough || exists a :: a in arms && FallsBody(a.body), false, false)
    decreases arms, 0
  {
    hide CheckFrom, PlacedBody, FallsBody, ReturnsBody;
    if arms != [] {
      var a, rest := arms[0], arms[1..];
      assert arms == [a] + rest;
      CheckedExactly(a.body, loop, inFn);
      if PlacedBody(a.body, loop, inFn) {
        var f := CheckBlock(a.body, loop, inFn).value;
        ArmsExactly(Flow(flow.mustReturn && f.mustReturn, flow.mayFallthrough || f.mayFallthrough, false, false), rest, loop, inFn);
      }
    }
  }

  // ---- completeness -----------------------------------------------------------------------------------

  // Every arm is the one taken for some value of the type, and no `unsafe` block is one that the flow
  // of its body says is never left at its end. Loop bodies do not matter: a loop can be skipped.
  ghost predicate OpenBody(e: seq<EnumDecl>, body: seq<Stmt>, loop: nat, inFn: bool)
    decreases body
  {
    forall s :: s in body ==> OpenStmt(e, s, loop, inFn)
  }

  ghost predicate OpenStmt(e: seq<EnumDecl>, s: Stmt, loop: nat, inFn: bool)
    decreases s
  {
    match s
    case Unsafe(body) => OpenBody(e, body, loop, inFn) && (CheckBlock(body, loop, inFn).Some? ==> CheckBlock(body, loop, inFn).value.mayFallthrough)
    case If(a, b) => OpenBody(e, a, loop, inFn) && OpenBody(e, b, loop, inFn)
    case Match(t, arms) => (forall k: nat :: k < |arms| ==> Selectable(e, t, arms, k)) && forall a :: a in arms ==> OpenBody(e, a.body, loop, inFn)
    case _ => true
  }

  ghost predicate Selectable(e: seq<EnumDecl>, t: Ty, arms: seq<Arm>, k: nat)
    requires k < |arms|
  {
    exists v :: HasType(v, t) && TakenAt(e, arms, v, k)
  }

  predicate TakenAt(e: seq<EnumDecl>, arms: seq<Arm>, v: Value, k: nat)
    requires k < |arms|
  {
    Selects(e, arms[k].pattern, v) && forall j :: 0 <= j < k ==> !Selects(e, arms[j].pattern, v)
  }

  lemma {:induction false} ArmTaken(e: seq<EnumDecl>, arms: seq<Arm>, v: Value, k: nat, o: Oracle, at: nat, fuel: nat)
    requires k < |arms| && TakenAt(e, arms, v, k)
    ensures ExecArms(e, arms, v, o, at, fuel) == Exec(e, arms[k].body, o, at, fuel)
  {
    if k > 0 {
      assert !Selects(e, arms[0].pattern, v);
      ArmTaken(e, arms[1..], v, k - 1, o, at, fuel);
    }
  }

  // Two oracles say the same from one evaluation to another.
  ghost predicate Agree(o: Oracle, p: Oracle, from: nat, to: nat) {
    && (forall n: nat :: from <= n < to ==> o.signal(n) == p.signal(n) && o.holds(n) == p.holds(n))
    && (forall n: nat, t: Ty :: from <= n < to ==> o.value(n, t) == p.value(n, t))
  }

  // One oracle up to an evaluation, another from there.
  function Then(o: Oracle, at: nat, p: Oracle): Oracle {
    Oracle((n: nat) => if n < at then o.signal(n) else p.signal(n),
           (n: nat) => if n < at then o.holds(n) else p.holds(n),
           (n: nat, t: Ty) => if n < at then o.value(n, t) else p.value(n, t))
  }

  // A run depends on the evaluations it makes, shown for the runs that go through and skip their loops.
  lemma {:induction false} BlockAgrees(e: seq<EnumDecl>, body: seq<Stmt>, o: Oracle, p: Oracle, at: nat)
    requires Exec(e, body, o, at, 0).exit == Normal && Agree(o, p, at, Exec(e, body, o, at, 0).at)
    ensures Exec(e, body, p, at, 0) == Exec(e, body, o, at, 0)
    decreases body, 1
  {
    if body != [] {
      var r := ExecStmt(e, body[0], o, at, 0);
      StmtAgrees(e, body[0], o, p, at);
      BlockAgrees(e, body[1..], o, p, r.at);
    }
  }

  lemma {:induction false} StmtAgrees(e: seq<EnumDecl>, s: Stmt, o: Oracle, p: Oracle, at: nat)
    requires ExecStmt(e, s, o, at, 0).exit == Normal && Agree(o, p, at, ExecStmt(e, s, o, at, 0).at)
    ensures ExecStmt(e, s, p, at, 0) == ExecStmt(e, s, o, at, 0)
    decreases s, 2
  {
    match s
    case Unsafe(body) => BlockAgrees(e, body, o, p, at);
    case If(a, b) => BlockAgrees(e, if o.holds(at) then a else b, o, p, at + 1);
    case Match(t, arms) =>
      assert o.value(at, t) == p.value(at, t);
      ArmsAgree(e, arms, o.value(at, t), o, p, at + 1);
    case _ =>
  }

  lemma {:induction false} ArmsAgree(e: seq<EnumDecl>, arms: seq<Arm>, v: Value, o: Oracle, p: Oracle, at: nat)
    requires ExecArms(e, arms, v, o, at, 0).exit == Normal && Agree(o, p, at, ExecArms(e, arms, v, o, at, 0).at)
    ensures ExecArms(e, arms, v, p, at, 0) == ExecArms(e, arms, v, o, at, 0)
    decreases arms, 0
  {
    if Selects(e, arms[0].pattern, v) { BlockAgrees(e, arms[0].body, o, p, at); } else { ArmsAgree(e, arms[1..], v, o, p, at); }
  }

  function Sample(t: Ty): (v: Value)
    ensures (t.TEnum? ==> t.decl.variants != []) ==> HasType(v, t)
  {
    match t
    case TBool => VBool(true)
    case TNil => VNil
    case TOption => VOption(true)
    case TResult => VResult(true)
    case TEnum(d) => VEnum(d, if d.variants == [] then "" else d.variants[0])
    case TOther => VInt(0)
  }

  // Every evaluation goes on; conditions come out the same; one type has one value.
  function Steady(holds: bool, t: Ty, v: Value): Oracle {
    Oracle((n: nat) => Goes, (n: nat) => holds, (n: nat, u: Ty) => if u == t then v else Sample(u))
  }

  // A block the checker lets fall through has a run that reaches its end.
  lemma {:induction false} FallingBlockRuns(e: seq<EnumDecl>, flow: Flow, body: seq<Stmt>, loop: nat, inFn: bool, at: nat) returns (o: Oracle)
    requires CheckFrom(flow, body, loop, inFn).Some? && CheckFrom(flow, body, loop, inFn).value.mayFallthrough && flow.mayFallthrough
    requires OpenBody(e, body, loop, inFn)
    ensures TypeSafe(o) && Exec(e, body, o, at, 0).exit == Normal
    decreases body, 1
  {
    if body == [] {
      o := Steady(false, TNil, VNil);
    } else {
      hide CheckStmt, OpenStmt, ExecStmt, TypeSafe, Agree;
      var f := CheckStmt(body[0], loop, inFn).value;
      if !f.mayFallthrough { Skipped(Joined(flow, f), body[1..], loop, inFn); }
      var first := FallingStmtRuns(e, body[0], loop, inFn, at);
      var r := ExecStmt(e, body[0], first, at, 0);
      var rest := FallingBlockRuns(e, Joined(flow, f), body[1..], loop, inFn, r.at);
      o := Then(first, r.at, rest);
      BothTyped(first, r.at, rest);
      StmtAgrees(e, body[0], first, o, at);
      BlockAgrees(e, body[1..], rest, o, r.at);
    }
  }

  lemma {:induction false} FallingStmtRuns(e: seq<EnumDecl>, s: Stmt, loop: nat, inFn: bool, at: nat) returns (o: Oracle)
    requires CheckStmt(s, loop, inFn).Some? && CheckStmt(s, loop, inFn).value.mayFallthrough && OpenStmt(e, s, loop, inFn)
    ensures TypeSafe(o) && ExecStmt(e, s, o, at, 0).exit == Normal
    decreases s, 2
  {
    match s
    case Unsafe(body) => o := FallingBlockRuns(e, NormalFlow(), body, loop, inFn, at);
    case If(a, b) => o := FallingIfRuns(e, s, loop, inFn, at);
    case Match(t, arms) =>
      hide OpenBody, Exhaustive;
      var k := FallingArm(Flow(true, false, false, false), arms, loop, inFn);
      assert arms[k] in arms;
      var rest := FallingBlockRuns(e, NormalFlow(), arms[k].body, loop, inFn, at + 1);
      o := FallingMatchRuns(e, t, arms, k, rest, at);
    case _ => o := Steady(false, TNil, VNil);
  }

  lemma {:induction false} FallingIfRuns(e: seq<EnumDecl>, s: Stmt, loop: nat, inFn: bool, at: nat) returns (o: Oracle)
    requires s.If? && CheckStmt(s, loop, inFn).Some? && CheckStmt(s, loop, inFn).value.mayFallthrough && OpenStmt(e, s, loop, inFn)
    ensures TypeSafe(o) && ExecStmt(e, s, o, at, 0).exit == Normal
    decreases s, 1
  {
    hide OpenBody;
    var thenFalls := CheckBlock(s.thenBody, loop, inFn).value.mayFallthrough;
    var branch := if thenFalls then s.thenBody else s.elseBody;
    var rest := FallingBlockRuns(e, NormalFlow(), branch, loop, inFn, at + 1);
    var first := Steady(thenFalls, TNil, VNil);
    o := Then(first, at + 1, rest);
    BothTyped(first, at + 1, rest);
    BlockAgrees(e, branch, rest, o, at + 1);
  }

  lemma FallingMatchRuns(e: seq<EnumDecl>, t: Ty, arms: seq<Arm>, k: nat, rest: Oracle, at: nat) returns (o: Oracle)
    requires k < |arms| && Selectable(e, t, arms, k) && TypeSafe(rest)
    requires Exec(e, arms[k].body, rest, at + 1, 0).exit == Normal
    ensures TypeSafe(o) && ExecStmt(e, Match(t, arms), o, at, 0).exit == Normal
  {
    hide Exec, ExecArms;
    var v :| HasType(v, t) && TakenAt(e, arms, v, k);
    var first := Steady(false, t, v);
    o := Then(first, at + 1, rest);
    BothTyped(first, at + 1, rest);
    BlockAgrees(e, arms[k].body, rest, o, at + 1);
    ArmTaken(e, arms, v, k, o, at + 1, 0);
  }

  lemma BothTyped(o: Oracle, at: nat, p: Oracle)
    requires TypeSafe(o) && TypeSafe(p)
    ensures TypeSafe(Then(o, at, p)) && Agree(o, Then(o, at, p), 0, at) && forall to: nat :: Agree(p, Then(o, at, p), at, to)
  {}

  lemma {:induction false} FallingArm(flow: Flow, arms: seq<Arm>, loop: nat, inFn: bool) returns (k: nat)
    requires CheckArms(flow, arms, loop, inFn).Some? && CheckArms(flow, arms, loop, inFn).value.mayFallthrough && !flow.mayFallthrough
    ensures k < |arms| && CheckBlock(arms[k].body, loop, inFn).Some? && CheckBlock(arms[k].body, loop, inFn).value.mayFallthrough
    decreases arms, 0
  {
    var f := CheckBlock(arms[0].body, loop, inFn).value;
    if f.mayFallthrough {
      k := 0;
    } else {
      k := FallingArm(Flow(flow.mustReturn && f.mustReturn, false, false, false), arms[1..], loop, inFn);
      k := k + 1;
    }
  }

  // Outside loops a flow that does not fall through returns.
  lemma {:induction false} BlockFallsOrReturns(flow: Flow, body: seq<Stmt>, inFn: bool)
    requires CheckFrom(flow, body, 0, inFn).Some? && (flow.mustReturn || flow.mayFallthrough)
    ensures var f := CheckFrom(flow, body, 0, inFn).value; f.mustReturn || f.mayFallthrough
    decreases body, 1
  {
    if body != [] {
      if flow.mayFallthrough {
        StmtFallsOrReturns(body[0], inFn);
        BlockFallsOrReturns(Joined(flow, CheckStmt(body[0], 0, inFn).value), body[1..], inFn);
      } else {
        BlockFallsOrReturns(flow, body[1..], inFn);
      }
    }
  }

  lemma {:induction false} StmtFallsOrReturns(s: Stmt, inFn: bool)
    requires CheckStmt(s, 0, inFn).Some?
    ensures var f := CheckStmt(s, 0, inFn).value; f.mustReturn || f.mayFallthrough
    decreases s, 2
  {
    match s
    case If(a, b) =>
      BlockFallsOrReturns(NormalFlow(), a, inFn);
      BlockFallsOrReturns(NormalFlow(), b, inFn);
    case Match(t, arms) => ArmsFallOrReturn(Flow(true, false, false, false), arms, inFn);
    case _ =>
  }

  lemma {:induction false} ArmsFallOrReturn(flow: Flow, arms: seq<Arm>, inFn: bool)
    requires CheckArms(flow, arms, 0, inFn).Some? && (flow.mustReturn || flow.mayFallthrough)
    ensures var f := CheckArms(flow, arms, 0, inFn).value; f.mustReturn || f.mayFallthrough
    decreases arms, 0
  {
    if arms != [] {
      var f := CheckBlock(arms[0].body, 0, inFn).value;
      BlockFallsOrReturns(NormalFlow(), arms[0].body, inFn);
      ArmsFallOrReturn(Flow(flow.mustReturn && f.mustReturn, flow.mayFallthrough || f.mayFallthrough, false, false), arms[1..], inFn);
    }
  }

  // A checked body with a result is refused exactly when some run reaches its end.
  lemma RefusedExactly(e: seq<EnumDecl>, body: seq<Stmt>)
    requires CheckBlock(body, 0, true).Some? && OpenBody(e, body, 0, true)
    ensures !Accepted(body, false) <==> exists o: Oracle, fuel: nat :: TypeSafe(o) && Exec(e, body, o, 0, fuel).exit == Normal
  {
    BlockFallsOrReturns(NormalFlow(), body, true);
    if Accepted(body, false) {
      forall o: Oracle, fuel: nat ensures Exec(e, body, o, 0, fuel).exit != Normal { AcceptedReturns(e, body, o, 0, fuel); }
    } else {
      var o := FallingBlockRuns(e, NormalFlow(), body, 0, true, 0);
      assert Exec(e, body, o, 0, 0).exit == Normal;
    }
  }

  // Without the condition it is refused for less: the flow of an `unsafe` block is not looked at, so a
  // function whose every run returns from inside one is refused.
  lemma UnsafeReturnIsRefused(e: seq<EnumDecl>, o: Oracle, at: nat, fuel: nat)
    ensures var body := [Unsafe([Return])];
      CheckBlock(body, 0, true).Some? && !Accepted(body, false) && Exec(e, body, o, at, fuel).exit in {Returned, Trapped}
  {
    var inner, body := [Return], [Unsafe([Return])];
    assert inner[1..] == [] && body[1..] == [] && body[0] == Unsafe(inner) && inner[0] == Return;
    assert CheckFrom(ReturnFlow(), [], 0, true) == Some(ReturnFlow());
    assert CheckFrom(NormalFlow(), [], 0, true) == Some(NormalFlow());
    assert Joined(NormalFlow(), ReturnFlow()) == ReturnFlow();
    assert CheckBlock(inner, 0, true) == Some(ReturnFlow());
    assert CheckStmt(Unsafe(inner), 0, true) == Some(NormalFlow());
    assert CheckBlock(body, 0, true) == Some(NormalFlow());
    assert ExecStmt(e, Return, o, at, fuel).exit in {Returned, Trapped};
    assert Exec(e, inner, o, at, fuel) == ExecStmt(e, Return, o, at, fuel);
    assert ExecStmt(e, Unsafe(inner), o, at, fuel) == Exec(e, inner, o, at, fuel);
    assert Exec(e, body, o, at, fuel) == ExecStmt(e, Unsafe(inner), o, at, fuel);
  }

  // ---- the checker -------------------------------------------------------------------------------------

  class Checker {
    var failed: bool

    constructor ()
      ensures !failed
    {
      failed := false;
    }

    method MatchIsExhaustive(t: Ty, arms: seq<Arm>) returns (r: bool)
      ensures r == Exhaustive(t, arms)
    {
      for i := 0 to |arms|
        invariant forall k :: 0 <= k < i ==> arms[k].pattern != Wildcard
      {
        if arms[i].pattern == Wildcard { assert arms[i] in arms; return true; }
      }
      var seen: set<string> := {};
      assert arms[..0] == [];
      for i := 0 to |arms|
        invariant seen == Seen(arms[..i]) && forall k :: 0 <= k < i ==> !WrongKind(t, arms[k].pattern)
      {
        var p := arms[i].pattern;
        if WrongKind(t, p) { assert arms[i] in arms; return false; }
        assert arms[..i + 1][..i] == arms[..i];
        seen := seen + Mark(p);
      }
      assert arms[..|arms|] == arms;
      r := Covers(t, seen);
    }

    method Block(body: seq<Stmt>, loop: nat, inFn: bool) returns (flow: Flow)
      requires !failed
      modifies this
      ensures failed <==> CheckBlock(body, loop, inFn).None?
      ensures !failed ==> CheckBlock(body, loop, inFn) == Some(flow)
      decreases body, 2
    {
      flow := NormalFlow();
      assert body[0..] == body;
      for i := 0 to |body|
        invariant !failed && CheckFrom(flow, body[i..], loop, inFn) == CheckBlock(body, loop, inFn)
      {
        assert body[i..][1..] == body[i + 1..];
        if !flow.mayFallthrough { continue; }
        assert body[i] in body;
        var f := Statement(body[i], loop, inFn);
        if failed { return; }
        flow := Flow(f.mustReturn, f.mayFallthrough, flow.mayBreak || f.mayBreak, flow.mayContinue || f.mayContinue);
      }
    }

    method Statement(s: Stmt, loop: nat, inFn: bool) returns (flow: Flow)
      requires !failed
      modifies this
      ensures failed <==> CheckStmt(s, loop, inFn).None?
      ensures !failed ==> CheckStmt(s, loop, inFn) == Some(flow)
      decreases s, 3
    {
      flow := NormalFlow();
      match s {
        case Plain =>
        case Unsafe(body) =>
          var _ := Block(body, loop, inFn);
        case If(thenBody, elseBody) =>
          var a := Block(thenBody, loop, inFn);
          if failed { return; }
          var b := NormalFlow();
          if |elseBody| > 0 {
            b := Block(elseBody, loop, inFn);
            if failed { return; }
          } else {
            assert CheckFrom(NormalFlow(), [], loop, inFn) == Some(NormalFlow());
          }
          flow := Flow(a.mustReturn && b.mustReturn, a.mayFallthrough || b.mayFallthrough, false, false);
        case While(body) =>
          var _ := Block(body, loop + 1, inFn);
        case For(body) =>
          var _ := Block(body, loop + 1, inFn);
        case Return =>
          failed := !inFn;
          flow := ReturnFlow();
        case Break =>
          failed := loop == 0;
          flow := Flow(false, false, true, false);
        case Continue =>
          failed := loop == 0;
          flow := Flow(false, false, false, true);
        case Match(t, arms) =>
          flow := MatchArms(t, arms, loop, inFn);
      }
    }

    method MatchArms(t: Ty, arms: seq<Arm>, loop: nat, inFn: bool) returns (flow: Flow)
      requires !failed
      modifies this
      ensures failed <==> CheckStmt(Match(t, arms), loop, inFn).None?
      ensures !failed ==> CheckStmt(Match(t, arms), loop, inFn) == Some(flow)
      decreases arms, 3
    {
      flow := NormalFlow();
      for i := 0 to |arms|
        invariant !failed && (t.TResult? ==> forall k :: 0 <= k < i ==> !arms[k].pattern.PNil?)
      {
        if t.TResult? && arms[i].pattern.PNil? { assert arms[i] in arms; failed := true; return; }
      }
      var ex := MatchIsExhaustive(t, arms);
      if !ex { failed := true; return; }
      var all, fall := true, false;
      assert arms[0..] == arms;
      for i := 0 to |arms|
        invariant !failed && CheckArms(Flow(all, fall, false, false), arms[i..], loop, inFn) == CheckArms(Flow(true, false, false, false), arms, loop, inFn)
      {
        assert arms[i..][1..] == arms[i + 1..];
        assert arms[i] in arms;
        var af := Block(arms[i].body, loop, inFn);
        if failed { return; }
        all := all && af.mustReturn;
        fall := fall || af.mayFallthrough;
      }
      flow := Flow(all, fall, false, false);
    }

    method FunctionBody(body: seq<Stmt>, resultIsNil: bool) returns (ok: bool)
      requires !failed
      modifies this
      ensures ok <==> Accepted(body, resultIsNil)
    {
      var flow := Block(body, 0, true);
      if failed { return false; }
      ok := resultIsNil || flow.mustReturn;
    }
  }
}
