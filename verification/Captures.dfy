// Closure captures: what the checker records for each lambda, against its free variables.
module Captures {

  import opened Wrappers

  // A declaration, told apart by its place in the source.
  datatype Name = Name(text: string, place: nat)

  datatype Expr =
    | Var(name: string)
    | Node(children: seq<Expr>)
    | Lambda(id: nat, params: seq<Name>, body: seq<Stmt>)

  // A nested block, with the variable a loop or a pattern binds in it.
  datatype Branch = Branch(binder: Option<Name>, body: seq<Stmt>)

  datatype Stmt =
    | Let(name: Name, init: Expr)
    | Assign(target: string, value: Expr)
    | Other(exprs: seq<Expr>, branches: seq<Branch>)

  // ---- free variables -------------------------------------------------------------------------------

  function Texts(ns: seq<Name>): set<string> { set n | n in ns :: n.text }

  // The names an expression reads and does not bind. An assignment does not read its target.
  function Free(e: Expr): set<string> {
    match e
    case Var(n) => {n}
    case Node(es) => FreeAll(es)
    case Lambda(_, ps, body) => FreeBody(body) - Texts(ps)
  }

  function FreeAll(es: seq<Expr>): set<string> {
    if es == [] then {} else FreeAll(es[..|es| - 1]) + Free(es[|es| - 1])
  }

  function FreeBody(body: seq<Stmt>): set<string> {
    if body == [] then {}
    else FreeStmt(body[0]) + (FreeBody(body[1..]) - Bound(body[0]))
  }

  function Bound(s: Stmt): set<string> { if s.Let? then {s.name.text} else {} }

  function FreeStmt(s: Stmt): set<string> {
    match s
    case Let(_, init) => Free(init)
    case Assign(_, v) => Free(v)
    case Other(es, bs) => FreeAll(es) + FreeBranches(bs)
  }

  function FreeBranches(bs: seq<Branch>): set<string> {
    if bs == [] then {} else FreeBranches(bs[..|bs| - 1]) + FreeBranch(bs[|bs| - 1])
  }

  function FreeBranch(b: Branch): set<string> {
    FreeBody(b.body) - (if b.binder.Some? then {b.binder.value.text} else {})
  }

  // ---- reading occurrences ----------------------------------------------------------------------------

  // A path of child steps that leads to the variable `n` and passes nothing that binds it: no lambda
  // parameter, no binder of a branch, no declaration earlier in the same block. Below a statement with
  // parts, 0 leads to its expressions and 1 to its branches.
  ghost predicate Reads(e: Expr, n: string, path: seq<nat>)
    decreases |path|, e
  {
    match e
    case Var(m) => path == [] && m == n
    case Node(es) => path != [] && path[0] < |es| && Reads(es[path[0]], n, path[1..])
    case Lambda(_, ps, body) => (forall p :: p in ps ==> p.text != n) && ReadsIn(body, n, path)
  }

  ghost predicate ReadsIn(body: seq<Stmt>, n: string, path: seq<nat>)
    decreases |path|, body
  {
    && path != [] && path[0] < |body|
    && (forall j :: 0 <= j < path[0] ==> !(body[j].Let? && body[j].name.text == n))
    && ReadsAt(body[path[0]], n, path[1..])
  }

  ghost predicate ReadsAt(s: Stmt, n: string, path: seq<nat>)
    decreases |path|, s
  {
    match s
    case Let(_, init) => Reads(init, n, path)
    case Assign(_, v) => Reads(v, n, path)
    case Other(es, bs) =>
      |path| >= 2 &&
      if path[0] == 0 then path[1] < |es| && Reads(es[path[1]], n, path[2..])
      else path[0] == 1 && path[1] < |bs| && ReadsBranch(bs[path[1]], n, path[2..])
  }

  ghost predicate ReadsBranch(b: Branch, n: string, path: seq<nat>)
    decreases |path|, b
  {
    (b.binder.Some? ==> b.binder.value.text != n) && ReadsIn(b.body, n, path)
  }

  ghost predicate ReadSomewhere(e: Expr, n: string) { exists path :: Reads(e, n, path) }

  lemma {:induction false} AllFree(es: seq<Expr>, n: string)
    ensures n in FreeAll(es) <==> exists i :: 0 <= i < |es| && n in Free(es[i])
  {
    if es != [] {
      var k := |es| - 1;
      AllFree(es[..k], n);
      if i :| 0 <= i < |es| && n in Free(es[i]) && i < k { assert n in Free(es[..k][i]); }
      if i :| 0 <= i < k && n in Free(es[..k][i]) { assert n in Free(es[i]); }
    }
  }

  lemma {:induction false} BranchesFree(bs: seq<Branch>, n: string)
    ensures n in FreeBranches(bs) <==> exists i :: 0 <= i < |bs| && n in FreeBranch(bs[i])
  {
    if bs != [] {
      var k := |bs| - 1;
      BranchesFree(bs[..k], n);
      if i :| 0 <= i < |bs| && n in FreeBranch(bs[i]) && i < k { assert n in FreeBranch(bs[..k][i]); }
      if i :| 0 <= i < k && n in FreeBranch(bs[..k][i]) { assert n in FreeBranch(bs[i]); }
    }
  }

  // A statement of the block reads the name and none before it declares it.
  predicate FreeAt(body: seq<Stmt>, n: string, i: nat) {
    i < |body| && n in FreeStmt(body[i]) && forall j :: 0 <= j < i ==> !(body[j].Let? && body[j].name.text == n)
  }

  lemma {:induction false} BodyFree(body: seq<Stmt>, n: string)
    ensures n in FreeBody(body) <==> exists i: nat :: FreeAt(body, n, i)
  {
    if body != [] {
      BodyFree(body[1..], n);
      if n in FreeStmt(body[0]) { assert FreeAt(body, n, 0); }
      if i: nat :| FreeAt(body[1..], n, i) && n !in Bound(body[0]) { assert FreeAt(body, n, i + 1); }
      if i: nat :| FreeAt(body, n, i) && i > 0 { assert FreeAt(body[1..], n, i - 1) && !(body[0].Let? && body[0].name.text == n); }
    }
  }

  // The free names are exactly those that some occurrence reads.
  lemma FreeExactly(e: Expr, n: string)
    ensures n in Free(e) <==> ReadSomewhere(e, n)
  {
    if n in Free(e) { var path := Occurrence(e, n); }
    if ReadSomewhere(e, n) {
      var path :| Reads(e, n, path);
      ReadIsFree(e, n, path);
    }
  }

  lemma {:induction false} Occurrence(e: Expr, n: string) returns (path: seq<nat>)
    requires n in Free(e)
    ensures Reads(e, n, path)
    decreases e
  {
    match e
    case Var(_) => path := [];
    case Node(es) =>
      AllFree(es, n);
      var i :| 0 <= i < |es| && n in Free(es[i]);
      var below := Occurrence(es[i], n);
      path := [i] + below;
      assert path[1..] == below;
    case Lambda(_, ps, body) => path := OccurrenceIn(body, n);
  }

  lemma {:induction false} OccurrenceIn(body: seq<Stmt>, n: string) returns (path: seq<nat>)
    requires n in FreeBody(body)
    ensures ReadsIn(body, n, path)
    decreases body
  {
    BodyFree(body, n);
    var i: nat :| FreeAt(body, n, i);
    assert body[i] in body;
    var below := OccurrenceAt(body[i], n);
    path := [i] + below;
    assert path[1..] == below;
  }

  lemma {:induction false} OccurrenceAt(s: Stmt, n: string) returns (path: seq<nat>)
    requires n in FreeStmt(s)
    ensures ReadsAt(s, n, path)
    decreases s
  {
    match s
    case Let(_, init) => path := Occurrence(init, n);
    case Assign(_, v) => path := Occurrence(v, n);
    case Other(es, bs) =>
      AllFree(es, n);
      BranchesFree(bs, n);
      if n in FreeAll(es) {
        var i :| 0 <= i < |es| && n in Free(es[i]);
        var below := Occurrence(es[i], n);
        path := [0, i] + below;
        assert path[2..] == below;
      } else {
        var i :| 0 <= i < |bs| && n in FreeBranch(bs[i]);
        var below := OccurrenceIn(bs[i].body, n);
        path := [1, i] + below;
        assert path[2..] == below;
      }
  }

  lemma {:induction false} ReadIsFree(e: Expr, n: string, path: seq<nat>)
    requires Reads(e, n, path)
    ensures n in Free(e)
    decreases e
  {
    match e
    case Var(_) =>
    case Node(es) =>
      ReadIsFree(es[path[0]], n, path[1..]);
      AllFree(es, n);
    case Lambda(_, ps, body) => ReadInIsFree(body, n, path);
  }

  lemma {:induction false} ReadInIsFree(body: seq<Stmt>, n: string, path: seq<nat>)
    requires ReadsIn(body, n, path)
    ensures n in FreeBody(body)
    decreases body
  {
    assert body[path[0]] in body;
    ReadAtIsFree(body[path[0]], n, path[1..]);
    BodyFree(body, n);
    assert FreeAt(body, n, path[0]);
  }

  lemma {:induction false} ReadAtIsFree(s: Stmt, n: string, path: seq<nat>)
    requires ReadsAt(s, n, path)
    ensures n in FreeStmt(s)
    decreases s
  {
    match s
    case Let(_, init) => ReadIsFree(init, n, path);
    case Assign(_, v) => ReadIsFree(v, n, path);
    case Other(es, bs) =>
      AllFree(es, n);
      BranchesFree(bs, n);
      if path[0] == 0 {
        ReadIsFree(es[path[1]], n, path[2..]);
      } else {
        var b := bs[path[1]];
        ReadInIsFree(b.body, n, path[2..]);
        assert n in FreeBranch(b);
      }
  }

  // ---- lambdas are different nodes -------------------------------------------------------------------

  function Ids(e: Expr): set<nat> {
    match e
    case Var(_) => {}
    case Node(es) => IdsAll(es)
    case Lambda(id, _, body) => {id} + IdsBody(body)
  }

  function IdsAll(es: seq<Expr>): set<nat> {
    if es == [] then {} else IdsAll(es[..|es| - 1]) + Ids(es[|es| - 1])
  }

  function IdsBody(body: seq<Stmt>): set<nat> {
    if body == [] then {} else IdsBody(body[..|body| - 1]) + IdsStmt(body[|body| - 1])
  }

  function IdsStmt(s: Stmt): set<nat> {
    match s
    case Let(_, init) => Ids(init)
    case Assign(_, v) => Ids(v)
    case Other(es, bs) => IdsAll(es) + IdsBranches(bs)
  }

  function IdsBranches(bs: seq<Branch>): set<nat> {
    if bs == [] then {} else IdsBranches(bs[..|bs| - 1]) + IdsBody(bs[|bs| - 1].body)
  }

  // Every lambda occurs once.
  ghost predicate Once(e: Expr) {
    match e
    case Var(_) => true
    case Node(es) => OnceAll(es)
    case Lambda(id, _, body) => id !in IdsBody(body) && OnceBody(body)
  }

  ghost predicate OnceAll(es: seq<Expr>) {
    es != [] ==> OnceAll(es[..|es| - 1]) && Once(es[|es| - 1]) && IdsAll(es[..|es| - 1]) !! Ids(es[|es| - 1])
  }

  ghost predicate OnceBody(body: seq<Stmt>) {
    body != [] ==> OnceBody(body[..|body| - 1]) && OnceStmt(body[|body| - 1]) && IdsBody(body[..|body| - 1]) !! IdsStmt(body[|body| - 1])
  }

  ghost predicate OnceStmt(s: Stmt) {
    match s
    case Let(_, init) => Once(init)
    case Assign(_, v) => Once(v)
    case Other(es, bs) => OnceAll(es) && OnceBranches(bs) && IdsAll(es) !! IdsBranches(bs)
  }

  ghost predicate OnceBranches(bs: seq<Branch>) {
    bs != [] ==> OnceBranches(bs[..|bs| - 1]) && OnceBody(bs[|bs| - 1].body) && IdsBranches(bs[..|bs| - 1]) !! IdsBody(bs[|bs| - 1].body)
  }

  // ---- scopes ---------------------------------------------------------------------------------------

  // One scope: the lambda it is in, and what it binds.
  datatype Frame = Frame(lambda: Option<nat>, values: map<string, nat>)

  datatype Found = Found(place: nat, lambda: Option<nat>)

  // The innermost scope that binds the name.
  function Lookup(scopes: seq<Frame>, n: string): Option<Found> {
    if scopes == [] then None
    else
      var top := scopes[|scopes| - 1];
      if n in top.values then Some(Found(top.values[n], top.lambda)) else Lookup(scopes[..|scopes| - 1], n)
  }

  datatype Capture = Capture(name: string, place: nat)

  function Elements(cs: seq<Capture>): set<Capture> { set c | c in cs }

  ghost predicate NoRepeats(cs: seq<Capture>) { forall i, j :: 0 <= i < j < |cs| ==> cs[i] != cs[j] }

  // The bindings among some names that belong to a scope outside the lambda.
  function Escaping(scopes: seq<Frame>, lambda: Option<nat>, names: set<string>): set<Capture> {
    set n | n in names && Lookup(scopes, n).Some? && Lookup(scopes, n).value.lambda != lambda :: Capture(n, Lookup(scopes, n).value.place)
  }

  // All bindings among some names.
  function Resolved(scopes: seq<Frame>, names: set<string>): set<Capture> {
    set n | n in names && Lookup(scopes, n).Some? :: Capture(n, Lookup(scopes, n).value.place)
  }

  // The innermost scope that binds the name binds it to this place.
  predicate BoundAt(scopes: seq<Frame>, n: string, place: nat, i: nat) {
    i < |scopes| && n in scopes[i].values && scopes[i].values[n] == place && forall j :: i < j < |scopes| ==> n !in scopes[j].values
  }

  ghost predicate BoundTo(scopes: seq<Frame>, n: string, place: nat) { exists i: nat :: BoundAt(scopes, n, place, i) }

  lemma {:induction false} LookupExactly(scopes: seq<Frame>, n: string, place: nat)
    ensures BoundTo(scopes, n, place) <==> Lookup(scopes, n).Some? && Lookup(scopes, n).value.place == place
    ensures Lookup(scopes, n).Some? ==> exists i: nat :: BoundAt(scopes, n, Lookup(scopes, n).value.place, i) && Lookup(scopes, n).value.lambda == scopes[i].lambda
  {
    if scopes != [] {
      var k := |scopes| - 1;
      LookupExactly(scopes[..k], n, place);
      if n in scopes[k].values {
        assert BoundAt(scopes, n, scopes[k].values[n], k);
      } else {
        if i: nat :| BoundAt(scopes[..k], n, place, i) { assert BoundAt(scopes, n, place, i); }
        if i: nat :| BoundAt(scopes, n, place, i) { assert BoundAt(scopes[..k], n, place, i); }
        if Lookup(scopes[..k], n).Some? {
          var f := Lookup(scopes[..k], n).value;
          var i: nat :| BoundAt(scopes[..k], n, f.place, i) && f.lambda == scopes[..k][i].lambda;
          assert BoundAt(scopes, n, f.place, i);
        }
      }
    }
  }

  // What was recorded are the bindings of the names that some occurrence in the lambda reads.
  ghost predicate RecordsReads(e: Expr, scopes: seq<Frame>, cs: seq<Capture>) {
    forall c :: c in cs <==> ReadSomewhere(e, c.name) && BoundTo(scopes, c.name, c.place)
  }

  lemma ReadsResolved(e: Expr, scopes: seq<Frame>, cs: seq<Capture>)
    ensures RecordsReads(e, scopes, cs) <==> Elements(cs) == Resolved(scopes, Free(e))
  {
    hide Free, ReadSomewhere, BoundTo, Lookup;
    forall c: Capture ensures ReadSomewhere(e, c.name) && BoundTo(scopes, c.name, c.place) <==> c in Resolved(scopes, Free(e)) {
      FreeExactly(e, c.name);
      LookupExactly(scopes, c.name, c.place);
      assert c == Capture(c.name, c.place);
    }
    if RecordsReads(e, scopes, cs) {
      forall c ensures c in Elements(cs) <==> c in Resolved(scopes, Free(e)) {}
    }
  }

  type Recorded = map<nat, seq<Capture>>

  function Bind(ns: seq<Name>): map<string, nat> {
    if ns == [] then map[] else Bind(ns[..|ns| - 1])[ns[|ns| - 1].text := ns[|ns| - 1].place]
  }

  lemma {:induction false} BindKeys(ns: seq<Name>)
    ensures Bind(ns).Keys == Texts(ns)
  {
    if ns != [] {
      BindKeys(ns[..|ns| - 1]);
      assert ns == ns[..|ns| - 1] + [ns[|ns| - 1]];
    }
  }

  function Push(scopes: seq<Frame>, lambda: Option<nat>, values: map<string, nat>): seq<Frame> { scopes + [Frame(lambda, values)] }

  function Declare(scopes: seq<Frame>, n: Name): seq<Frame>
    requires scopes != []
  {
    var k := |scopes| - 1;
    scopes[..k] + [scopes[k].(values := scopes[k].values[n.text := n.place])]
  }

  // ---- the claim --------------------------------------------------------------------------------------

  // Every lambda of the expression has recorded exactly what its occurrences read from outside it, as
  // bound where it stands, each once.
  ghost predicate Exact(e: Expr, scopes: seq<Frame>, r: Recorded) {
    match e
    case Var(_) => true
    case Node(es) => ExactAll(es, scopes, r)
    case Lambda(id, ps, body) =>
      id in r && NoRepeats(r[id]) && RecordsReads(e, scopes, r[id])
      && ExactBody(body, Push(scopes, Some(id), Bind(ps)), r)
  }

  ghost predicate ExactAll(es: seq<Expr>, scopes: seq<Frame>, r: Recorded) {
    forall e :: e in es ==> Exact(e, scopes, r)
  }

  // The scopes in front of a statement: the declarations before it are in the innermost one.
  function ScopesAt(scopes: seq<Frame>, body: seq<Stmt>, i: nat): (r: seq<Frame>)
    requires scopes != [] && i <= |body|
    ensures r != [] && r[|r| - 1].lambda == scopes[|scopes| - 1].lambda
  {
    if i == 0 then scopes else After(ScopesAt(scopes, body, i - 1), body[i - 1])
  }

  function After(scopes: seq<Frame>, s: Stmt): (r: seq<Frame>)
    requires scopes != []
    ensures r != [] && r[|r| - 1].lambda == scopes[|scopes| - 1].lambda
  {
    if s.Let? then Declare(scopes, s.name) else scopes
  }

  ghost predicate ExactBody(body: seq<Stmt>, scopes: seq<Frame>, r: Recorded)
    requires scopes != []
    decreases body
  {
    forall i :: 0 <= i < |body| ==> ExactStmt(body[i], ScopesAt(scopes, body, i), r)
  }

  ghost predicate ExactStmt(s: Stmt, scopes: seq<Frame>, r: Recorded)
    requires scopes != []
    decreases s
  {
    match s
    case Let(_, init) => Exact(init, scopes, r)
    case Assign(_, v) => Exact(v, scopes, r)
    case Other(es, bs) => ExactAll(es, scopes, r) && forall b :: b in bs ==> ExactBranch(b, scopes, r)
  }

  ghost predicate ExactBranch(b: Branch, scopes: seq<Frame>, r: Recorded)
    requires scopes != []
    decreases b
  {
    ExactBody(b.body, Inner(b, scopes), r)
  }

  function Inner(b: Branch, scopes: seq<Frame>): seq<Frame>
    requires scopes != []
  {
    Push(scopes, scopes[|scopes| - 1].lambda, if b.binder.Some? then Bind([b.binder.value]) else map[])
  }

  // What the pass refuses: a repeated parameter, a second declaration of a name in one scope, and an
  // assignment to a name that no scope binds.
  predicate Accepted(e: Expr, scopes: seq<Frame>) {
    match e
    case Var(_) => true
    case Node(es) => AcceptedAll(es, scopes)
    case Lambda(id, ps, body) => !Repeats(ps) && AcceptedBody(body, Push(scopes, Some(id), Bind(ps)))
  }

  predicate Repeats(ps: seq<Name>) { exists i, j :: 0 <= i < j < |ps| && ps[i].text == ps[j].text }

  predicate AcceptedAll(es: seq<Expr>, scopes: seq<Frame>) {
    forall i :: 0 <= i < |es| ==> Accepted(es[i], scopes)
  }

  predicate AcceptedBody(body: seq<Stmt>, scopes: seq<Frame>)
    requires scopes != []
    decreases body, 0
  {
    forall i :: 0 <= i < |body| ==> AcceptedNext(body[i], ScopesAt(scopes, body, i))
  }

  predicate AcceptedNext(s: Stmt, scopes: seq<Frame>)
    requires scopes != []
    decreases s, 1
  {
    AcceptedStmt(s, scopes) && (s.Let? ==> s.name.text !in scopes[|scopes| - 1].values)
  }

  predicate AcceptedStmt(s: Stmt, scopes: seq<Frame>)
    requires scopes != []
    decreases s, 0
  {
    match s
    case Let(_, init) => Accepted(init, scopes)
    case Assign(target, v) => Lookup(scopes, target).Some? && Accepted(v, scopes)
    case Other(es, bs) => AcceptedAll(es, scopes) && AcceptedBranches(bs, scopes)
  }

  predicate AcceptedBranches(bs: seq<Branch>, scopes: seq<Frame>)
    requires scopes != []
  {
    forall i :: 0 <= i < |bs| ==> AcceptedBranch(bs[i], scopes)
  }

  predicate AcceptedBranch(b: Branch, scopes: seq<Frame>)
    requires scopes != []
    decreases b
  {
    AcceptedBody(b.body, Inner(b, scopes))
  }

  // The scopes in front of a statement: the innermost has, besides what it had, the names declared by the
  // statements before; the scopes around it are untouched.
  lemma {:induction false} DeclaredBefore(scopes: seq<Frame>, body: seq<Stmt>, i: nat, n: string)
    requires scopes != [] && i <= |body|
    ensures var r, k := ScopesAt(scopes, body, i), |scopes| - 1;
      && |r| == |scopes| && r[..k] == scopes[..k]
      && (n in r[k].values <==> n in scopes[k].values || exists j :: 0 <= j < i && Names(body[j], n))
  {
    if i > 0 {
      DeclaredBefore(scopes, body, i - 1, n);
      hide ScopesAt;
      OneDeclared(ScopesAt(scopes, body, i - 1), body[i - 1], n);
      assert ScopesAt(scopes, body, i) == After(ScopesAt(scopes, body, i - 1), body[i - 1]) by { ScopesUnfold(scopes, body, i); }
      hide After, Names;
    }
  }

  lemma ScopesUnfold(scopes: seq<Frame>, body: seq<Stmt>, i: nat)
    requires scopes != [] && 0 < i <= |body|
    ensures ScopesAt(scopes, body, i) == After(ScopesAt(scopes, body, i - 1), body[i - 1])
  {}

  lemma OneDeclared(scopes: seq<Frame>, s: Stmt, n: string)
    requires scopes != []
    ensures var r, k := After(scopes, s), |scopes| - 1;
      && |r| == |scopes| && r[..k] == scopes[..k]
      && (n in r[k].values <==> n in scopes[k].values || Names(s, n))
      && (Names(s, n) ==> r[k].values[n] == s.name.place)
      && (!Names(s, n) && n in scopes[k].values ==> r[k].values[n] == scopes[k].values[n])
  {}

  // A name stands for its last declaration, or for what it stood for before the block.
  lemma {:induction false} LastDeclared(scopes: seq<Frame>, body: seq<Stmt>, i: nat, n: string, j: nat)
    requires scopes != [] && i <= |body| && j < i && Names(body[j], n) && forall l :: j < l < i ==> !Names(body[l], n)
    ensures var r, k := ScopesAt(scopes, body, i), |scopes| - 1; |r| == |scopes| && n in r[k].values && r[k].values[n] == body[j].name.place
  {
    ScopesUnfold(scopes, body, i);
    OneDeclared(ScopesAt(scopes, body, i - 1), body[i - 1], n);
    DeclaredBefore(scopes, body, i - 1, n);
    if j < i - 1 { LastDeclared(scopes, body, i - 1, n, j); }
    hide ScopesAt, After, Names;
  }

  predicate Names(s: Stmt, n: string) { s.Let? && s.name.text == n }

  // A block is accepted exactly when its statements are where they stand and each name it declares is new
  // to the scope: neither there before nor declared by an earlier statement.
  lemma BodyAcceptedExactly(body: seq<Stmt>, scopes: seq<Frame>)
    requires scopes != []
    ensures AcceptedBody(body, scopes) <==>
      && (forall i :: 0 <= i < |body| ==> AcceptedStmt(body[i], ScopesAt(scopes, body, i)))
      && (forall i :: 0 <= i < |body| && body[i].Let? ==> body[i].name.text !in scopes[|scopes| - 1].values)
      && (forall i, j :: 0 <= i < j < |body| && body[j].Let? ==> !Names(body[i], body[j].name.text))
  {
    hide ScopesAt, AcceptedStmt, Names;
    forall j: nat | j < |body| && body[j].Let?
      ensures ScopesAt(scopes, body, j) != []
      ensures var at := ScopesAt(scopes, body, j);
        body[j].name.text in at[|at| - 1].values <==>
        body[j].name.text in scopes[|scopes| - 1].values || exists i :: 0 <= i < j && Names(body[i], body[j].name.text)
    {
      DeclaredBefore(scopes, body, j, body[j].name.text);
    }
    assert forall j :: 0 <= j < |body| ==> (AcceptedNext(body[j], ScopesAt(scopes, body, j)) <==>
      AcceptedStmt(body[j], ScopesAt(scopes, body, j))
      && (body[j].Let? ==> var at := ScopesAt(scopes, body, j); body[j].name.text !in at[|at| - 1].values));
  }

  // An expression is accepted exactly when its parts are and no lambda names a parameter twice.
  lemma AcceptedExactly(e: Expr, scopes: seq<Frame>)
    ensures e.Var? ==> Accepted(e, scopes)
    ensures e.Node? ==> (Accepted(e, scopes) <==> forall x :: x in e.children ==> Accepted(x, scopes))
    ensures e.Lambda? ==> (Accepted(e, scopes) <==>
      && (forall i, j :: 0 <= i < j < |e.params| ==> e.params[i].text != e.params[j].text)
      && AcceptedBody(e.body, scopes + [Frame(Some(e.id), Bind(e.params))]))
  {
    hide AcceptedBody;
    if e.Node? { AllAccepted(e.children, scopes); }
  }

  lemma AllAccepted(es: seq<Expr>, scopes: seq<Frame>)
    ensures AcceptedAll(es, scopes) <==> forall x :: x in es ==> Accepted(x, scopes)
  {
    hide Accepted;
    if forall x :: x in es ==> Accepted(x, scopes) {
      forall i | 0 <= i < |es| ensures Accepted(es[i], scopes) { assert es[i] in es; }
    }
  }

  // A statement is accepted exactly when its parts are, those of a branch in a scope with its binder, and the
  // name it assigns to is bound somewhere.
  lemma StatementAcceptedExactly(s: Stmt, scopes: seq<Frame>)
    requires scopes != []
    ensures s.Let? ==> (AcceptedStmt(s, scopes) <==> Accepted(s.init, scopes))
    ensures s.Assign? ==> (AcceptedStmt(s, scopes) <==> (exists place :: BoundTo(scopes, s.target, place)) && Accepted(s.value, scopes))
    ensures s.Other? ==> (AcceptedStmt(s, scopes) <==>
      (forall x :: x in s.exprs ==> Accepted(x, scopes)) && (forall b :: b in s.branches ==> AcceptedBranch(b, scopes)))
    ensures forall b :: AcceptedBranch(b, scopes) <==> AcceptedBody(b.body, scopes
      + [Frame(scopes[|scopes| - 1].lambda, if b.binder.Some? then map[b.binder.value.text := b.binder.value.place] else map[])])
  {
    hide Lookup, AcceptedBody, BoundTo, Accepted, Bind;
    match s {
      case Assign(target, _) =>
        if Lookup(scopes, target).Some? { LookupExactly(scopes, target, Lookup(scopes, target).value.place); }
        if place :| BoundTo(scopes, target, place) { LookupExactly(scopes, target, place); }
      case Other(es, bs) =>
        AllAccepted(es, scopes);
        if forall b :: b in bs ==> AcceptedBranch(b, scopes) {
          forall i | 0 <= i < |bs| ensures AcceptedBranch(bs[i], scopes) { assert bs[i] in bs; }
        }
      case _ =>
    }
    forall n ensures Bind([n]) == map[n.text := n.place] { OneBound(n); }
  }

  lemma OneBound(n: Name)
    ensures Bind([n]) == map[n.text := n.place]
  {
    assert [n][..0] == [];
    assert Bind([]) == map[];
  }

  // ---- what later checking leaves alone --------------------------------------------------------------

  ghost predicate Same(ids: set<nat>, a: Recorded, b: Recorded) { forall k :: k in ids && k in a ==> k in b && b[k] == a[k] }

  lemma {:induction false} InIds(es: seq<Expr>, e: Expr)
    requires e in es
    ensures Ids(e) <= IdsAll(es)
  {
    var k := |es| - 1;
    if e != es[k] { assert e in es[..k]; InIds(es[..k], e); }
  }

  lemma {:induction false} StmtIds(body: seq<Stmt>, i: nat)
    requires i < |body|
    ensures IdsStmt(body[i]) <= IdsBody(body)
  {
    var k := |body| - 1;
    if i < k { StmtIds(body[..k], i); }
  }

  lemma {:induction false} BranchIds(bs: seq<Branch>, b: Branch)
    requires b in bs
    ensures IdsBody(b.body) <= IdsBranches(bs)
  {
    var k := |bs| - 1;
    if b != bs[k] { assert b in bs[..k]; BranchIds(bs[..k], b); }
  }

  lemma {:induction false} ExactKept(e: Expr, scopes: seq<Frame>, a: Recorded, b: Recorded)
    requires Exact(e, scopes, a) && Same(Ids(e), a, b)
    ensures Exact(e, scopes, b)
    decreases e
  {
    match e
    case Var(_) =>
    case Node(es) => ExactAllKept(es, scopes, a, b);
    case Lambda(id, ps, body) => ExactBodyKept(body, Push(scopes, Some(id), Bind(ps)), a, b);
  }

  lemma {:induction false} ExactAllKept(es: seq<Expr>, scopes: seq<Frame>, a: Recorded, b: Recorded)
    requires ExactAll(es, scopes, a) && Same(IdsAll(es), a, b)
    ensures ExactAll(es, scopes, b)
    decreases es
  {
    forall e | e in es ensures Exact(e, scopes, b) {
      InIds(es, e);
      ExactKept(e, scopes, a, b);
    }
  }

  lemma {:induction false} ExactBodyKept(body: seq<Stmt>, scopes: seq<Frame>, a: Recorded, b: Recorded)
    requires scopes != [] && ExactBody(body, scopes, a) && Same(IdsBody(body), a, b)
    ensures ExactBody(body, scopes, b)
    decreases body
  {
    forall i | 0 <= i < |body| ensures ExactStmt(body[i], ScopesAt(scopes, body, i), b) {
      StmtIds(body, i);
      assert body[i] in body;
      ExactStmtKept(body[i], ScopesAt(scopes, body, i), a, b);
    }
  }

  lemma {:induction false} ExactStmtKept(s: Stmt, scopes: seq<Frame>, a: Recorded, b: Recorded)
    requires scopes != [] && ExactStmt(s, scopes, a) && Same(IdsStmt(s), a, b)
    ensures ExactStmt(s, scopes, b)
    decreases s
  {
    match s
    case Let(_, init) => ExactKept(init, scopes, a, b);
    case Assign(_, v) => ExactKept(v, scopes, a, b);
    case Other(es, bs) =>
      ExactAllKept(es, scopes, a, b);
      forall x | x in bs ensures ExactBranch(x, scopes, b) {
        BranchIds(bs, x);
        ExactBodyKept(x.body, Inner(x, scopes), a, b);
      }
  }

  // ---- scopes and free names ---------------------------------------------------------------------------

  lemma LookupPushed(scopes: seq<Frame>, lambda: Option<nat>, values: map<string, nat>, n: string)
    ensures Lookup(Push(scopes, lambda, values), n) == if n in values then Some(Found(values[n], lambda)) else Lookup(scopes, n)
  {
    assert Push(scopes, lambda, values)[..|scopes|] == scopes;
  }

  lemma LookupDeclared(scopes: seq<Frame>, d: Name, n: string)
    requires scopes != []
    ensures Lookup(Declare(scopes, d), n) == if n == d.text then Some(Found(d.place, scopes[|scopes| - 1].lambda)) else Lookup(scopes, n)
  {
    var k := |scopes| - 1;
    assert Declare(scopes, d)[..k] == scopes[..k];
  }

  // What escapes an inner scope of the same lambda escapes as a free name of the block.
  lemma EscapingPushed(scopes: seq<Frame>, lambda: Option<nat>, values: map<string, nat>, names: set<string>)
    ensures Escaping(Push(scopes, lambda, values), lambda, names) == Escaping(scopes, lambda, names - values.Keys)
  {
    forall n ensures Lookup(Push(scopes, lambda, values), n) == if n in values then Some(Found(values[n], lambda)) else Lookup(scopes, n) {
      LookupPushed(scopes, lambda, values, n);
    }
  }

  lemma EscapingDeclared(scopes: seq<Frame>, d: Name, lambda: Option<nat>, names: set<string>)
    requires scopes != [] && scopes[|scopes| - 1].lambda == lambda
    ensures Escaping(Declare(scopes, d), lambda, names) == Escaping(scopes, lambda, names - {d.text})
  {
    forall n ensures Lookup(Declare(scopes, d), n) == if n == d.text then Some(Found(d.place, lambda)) else Lookup(scopes, n) {
      LookupDeclared(scopes, d, n);
    }
  }

  lemma EscapingUnion(scopes: seq<Frame>, lambda: Option<nat>, a: set<string>, b: set<string>)
    ensures Escaping(scopes, lambda, a + b) == Escaping(scopes, lambda, a) + Escaping(scopes, lambda, b)
  {}

  // No scope outside a new lambda is its own.
  lemma {:induction false} NewLambda(scopes: seq<Frame>, id: nat, names: set<string>)
    requires forall f :: f in scopes ==> f.lambda != Some(id)
    ensures Escaping(scopes, Some(id), names) == Resolved(scopes, names)
  {
    forall n | Lookup(scopes, n).Some? ensures Lookup(scopes, n).value.lambda != Some(id) { FoundInScope(scopes, n); }
  }

  lemma {:induction false} FoundInScope(scopes: seq<Frame>, n: string)
    requires Lookup(scopes, n).Some?
    ensures exists f :: f in scopes && f.lambda == Lookup(scopes, n).value.lambda
  {
    var k := |scopes| - 1;
    if n in scopes[k].values { assert scopes[k] in scopes; } else { FoundInScope(scopes[..k], n); }
  }

  // ---- one step of checking ----------------------------------------------------------------------------

  datatype Snapshot = Snapshot(scopes: seq<Frame>, lambda: Option<nat>, captures: Recorded)

  // The innermost scope is in the current lambda, and recording has started for every lambda of a
  // scope.
  ghost predicate ValidAt(s: Snapshot) {
    && s.scopes != [] && s.scopes[|s.scopes| - 1].lambda == s.lambda
    && (forall f :: f in s.scopes && f.lambda.Some? ==> f.lambda.value in s.captures)
    && (forall k :: k in s.captures ==> NoRepeats(s.captures[k]))
  }

  // What the lambda being checked has recorded.
  function Mine(s: Snapshot): set<Capture> {
    if s.lambda.Some? && s.lambda.value in s.captures then Elements(s.captures[s.lambda.value]) else {}
  }

  // Checking something with these lambdas records for them, and the bindings that escape for the
  // lambda around it; nothing else changes.
  ghost predicate Step(a: Snapshot, b: Snapshot, ids: set<nat>, escaping: set<Capture>) {
    && b.lambda == a.lambda && b.captures.Keys == a.captures.Keys + ids
    && (forall k :: k in a.captures && Some(k) != a.lambda ==> b.captures[k] == a.captures[k])
    && (a.lambda.Some? ==> Mine(b) == Mine(a) + escaping)
  }

  lemma StepNothing(a: Snapshot)
    ensures Step(a, a, {}, {})
  {}

  // Two steps in a row; the second leaves alone what the first recorded for new lambdas.
  lemma StepTrans(a: Snapshot, b: Snapshot, c: Snapshot, x: set<nat>, y: set<nat>, s: set<Capture>, t: set<Capture>)
    requires Step(a, b, x, s) && Step(b, c, y, t)
    ensures Step(a, c, x + y, s + t)
    ensures x !! a.captures.Keys && (a.lambda.Some? ==> a.lambda.value in a.captures) ==> Same(x, b.captures, c.captures)
  {}

  lemma StepKeys(a: Snapshot, b: Snapshot, ids: set<nat>, escaping: set<Capture>)
    requires Step(a, b, ids, escaping)
    ensures b.captures.Keys == a.captures.Keys + ids
  {}

  // ---- the checker ------------------------------------------------------------------------------------

  class Checker {
    var scopes: seq<Frame>
    var currentLambda: Option<nat>
    var captures: Recorded

    ghost predicate Valid()
      reads this
    {
      ValidAt(Now())
    }

    constructor (globals: map<string, nat>)
      ensures Valid() && scopes == [Frame(None, globals)] && currentLambda == None && captures == map[]
    {
      scopes, currentLambda, captures := [Frame(None, globals)], None, map[];
    }

    ghost function Now(): Snapshot
      reads this
    {
      Snapshot(scopes, currentLambda, captures)
    }

    method LookupOwner(n: string) returns (r: Option<Found>)
      ensures r == Lookup(scopes, n)
    {
      var q := |scopes|;
      assert scopes[..q] == scopes;
      while q > 0
        invariant 0 <= q <= |scopes| && Lookup(scopes[..q], n) == Lookup(scopes, n)
      {
        assert scopes[..q][..q - 1] == scopes[..q - 1];
        var frame := scopes[q - 1];
        if n in frame.values { return Some(Found(frame.values[n], frame.lambda)); }
        q := q - 1;
      }
      r := None;
    }

    method AddCapture(lambda: nat, c: Capture)
      requires lambda in captures && NoRepeats(captures[lambda])
      modifies this`captures
      ensures captures.Keys == old(captures.Keys) && NoRepeats(captures[lambda])
      ensures Elements(captures[lambda]) == old(Elements(captures[lambda])) + {c}
      ensures forall k :: k in captures && k != lambda ==> captures[k] == old(captures)[k]
      ensures old(Valid()) ==> Valid()
    {
      var existing := captures[lambda];
      for i := 0 to |existing|
        invariant forall k :: 0 <= k < i ==> existing[k] != c
      {
        if existing[i] == c { assert c in existing; return; }
      }
      captures := captures[lambda := existing + [c]];
    }

    method CheckVar(n: string)
      requires Valid()
      modifies this`captures
      ensures Valid() && Step(old(Now()), Now(), {}, Escaping(scopes, currentLambda, {n}))
    {
      var found := LookupOwner(n);
      if found.Some? && currentLambda.Some? && found.value.lambda != currentLambda {
        assert scopes[|scopes| - 1] in scopes;
        AddCapture(currentLambda.value, Capture(n, found.value.place));
      }
    }

    method CheckExpr(e: Expr) returns (ok: bool)
      requires Valid() && Once(e) && Ids(e) !! captures.Keys
      modifies this
      ensures ok <==> Accepted(e, old(scopes))
      ensures ok ==> Valid() && scopes == old(scopes) && Exact(e, scopes, captures)
      ensures ok ==> Step(old(Now()), Now(), Ids(e), Escaping(scopes, currentLambda, Free(e)))
      decreases e, 1
    {
      match e {
        case Var(n) =>
          CheckVar(n);
          ok := true;
        case Node(es) => ok := CheckAll(es);
        case Lambda(_, _, _) => ok := CheckLambda(e);
      }
    }

    // A lambda is checked in a scope of its own; what it captured from outside the lambda around it
    // that one captures too.
    method CheckLambda(e: Expr) returns (ok: bool)
      requires e.Lambda? && Valid() && Once(e) && Ids(e) !! captures.Keys
      modifies this
      ensures ok <==> Accepted(e, old(scopes))
      ensures ok ==> Valid() && scopes == old(scopes) && Exact(e, scopes, captures)
      ensures ok ==> Step(old(Now()), Now(), Ids(e), Escaping(scopes, currentLambda, Free(e)))
      decreases e, 0
    {
      hide Exact, ExactBody, FreeBody, IdsBody, OnceBody, Escaping, Step, ValidAt, Resolved, Lookup, Repeats, AcceptedBody;
      var previous, outer := currentLambda, scopes;
      ghost var start := Now();
      CurrentIsRecorded();
      var repeated := RepeatedParameter(e.params);
      if repeated { return false; }
      scopes := scopes + [Frame(Some(e.id), Bind(e.params))];
      currentLambda := Some(e.id);
      captures := captures[e.id := []];
      EnterLambda(start, e);
      ok := CheckBody(e.body);
      if !ok { return; }
      LeaveLambda(start, Now(), e);
      scopes, currentLambda := outer, previous;
      ghost var left := Now();
      Propagate(e.id);
      PropagatedExactly(start, left, Now(), e);
    }

    method RepeatedParameter(ps: seq<Name>) returns (repeated: bool)
      ensures repeated <==> Repeats(ps)
    {
      var seen: set<string> := {};
      for i := 0 to |ps|
        invariant seen == (set k | 0 <= k < i :: ps[k].text)
        invariant forall k, l :: 0 <= k < l < i ==> ps[k].text != ps[l].text
      {
        if ps[i].text in seen { return true; }
        seen := seen + {ps[i].text};
      }
      repeated := false;
    }

    method Propagate(inner: nat)
      requires Valid() && inner in captures && currentLambda != Some(inner)
      modifies this`captures
      ensures Valid() && captures.Keys == old(captures.Keys)
      ensures forall k :: k in captures && Some(k) != currentLambda ==> captures[k] == old(captures)[k]
      ensures currentLambda.Some? ==> Mine(Now()) == Mine(old(Now())) + Outside(scopes, currentLambda, Elements(captures[inner]))
    {
      hide Lookup, ValidAt, Outside;
      if currentLambda.None? { return; }
      CurrentIsRecorded();
      RecordedOnce(currentLambda.value);
      OutsideNothing(scopes, currentLambda);
      var cs := captures[inner];
      for i := 0 to |cs|
        invariant Valid() && captures.Keys == old(captures.Keys)
        invariant forall k :: k in captures && Some(k) != currentLambda ==> captures[k] == old(captures)[k]
        invariant Mine(Now()) == Mine(old(Now())) + Outside(scopes, currentLambda, Elements(cs[..i]))
      {
        var found := LookupOwner(cs[i].name);
        OneMoreOutside(scopes, currentLambda, cs, i);
        RecordedOnce(currentLambda.value);
        if found.Some? && found.value.lambda != currentLambda { AddCapture(currentLambda.value, cs[i]); }
      }
      assert cs[..|cs|] == cs;
    }

    // Statements in the innermost scope, which collects their declarations.
    method CheckBody(body: seq<Stmt>) returns (ok: bool)
      requires Valid() && OnceBody(body) && IdsBody(body) !! captures.Keys
      modifies this
      ensures ok <==> old(scopes) != [] && AcceptedBody(body, old(scopes))
      ensures ok ==> Valid() && currentLambda == old(currentLambda) && old(scopes) != []
      ensures ok ==> scopes == ScopesAt(old(scopes), body, |body|) && ExactBody(body, old(scopes), captures)
      ensures ok ==> Step(old(Now()), Now(), IdsBody(body), Escaping(old(scopes), currentLambda, FreeBody(body)))
      decreases body, 0
    {
      hide ExactStmt, FreeBody, FreeStmt, IdsStmt, IdsBody, OnceBody, OnceStmt, Escaping, Step, ValidAt, After, Same, ScopesAt, AcceptedNext;
      ghost var start, base, ids, escaping := Now(), scopes, {}, {};
      StepNothing(start);
      CurrentIsRecorded();
      NoStmts(body, base, currentLambda);
      for i := 0 to |body|
        invariant Valid() && currentLambda == old(currentLambda) && scopes == ScopesAt(base, body, i)
        invariant EarlierExact(body, i, base, captures)
        invariant ids == IdsBody(body[..i]) && Step(start, Now(), ids, escaping)
        invariant escaping + Escaping(scopes, currentLambda, FreeBody(body[i..])) == Escaping(base, currentLambda, FreeBody(body))
        invariant forall k :: 0 <= k < i ==> AcceptedNext(body[k], ScopesAt(base, body, k))
      {
        hide EarlierExact;
        ghost var before := Now();
        OnceStmts(body, i);
        NextStmt(body, i, scopes, base, currentLambda);
        StepKeys(start, before, ids, escaping);
        ok := CheckNext(body[i]);
        if !ok { return; }
        ghost var more := Escaping(before.scopes, currentLambda, FreeStmt(body[i]));
        StepTrans(start, before, Now(), ids, IdsStmt(body[i]), escaping, more);
        EarlierKept(body, i, base, before.captures, captures);
        ids, escaping := ids + IdsStmt(body[i]), escaping + more;
      }
      assert body[..|body|] == body && body[|body|..] == [];
      NoMore(scopes, currentLambda, escaping, Escaping(base, currentLambda, FreeBody(body)));
      ok := true;
    }

    // A statement, and what it declares.
    method CheckNext(s: Stmt) returns (ok: bool)
      requires Valid() && OnceStmt(s) && IdsStmt(s) !! captures.Keys
      modifies this
      ensures ok <==> old(scopes) != [] && AcceptedNext(s, old(scopes))
      ensures ok ==> Valid() && currentLambda == old(currentLambda) && old(scopes) != []
      ensures ok ==> scopes == After(old(scopes), s) && ExactStmt(s, old(scopes), captures)
      ensures ok ==> Step(old(Now()), Now(), IdsStmt(s), Escaping(old(scopes), currentLambda, FreeStmt(s)))
      decreases s, 3
    {
      hide ExactStmt, FreeStmt, IdsStmt, OnceStmt, Escaping, ValidAt, After, AcceptedStmt;
      ok := CheckStmt(s);
      if !ok { return; }
      ghost var checked := Now();
      ok := DeclareName(s);
    }

    // A declaration enters the innermost scope, once.
    method DeclareName(s: Stmt) returns (ok: bool)
      requires Valid()
      modifies this`scopes
      ensures ok <==> (s.Let? ==> old(scopes) != [] && s.name.text !in old(scopes)[|old(scopes)| - 1].values)
      ensures scopes == if ok then After(old(scopes), s) else old(scopes)
      ensures Valid() && old(scopes) != []
    {
      if !s.Let? { return true; }
      var k := |scopes| - 1;
      if s.name.text in scopes[k].values { return false; }
      DeclaredValid(Now(), s.name);
      scopes := scopes[..k] + [scopes[k].(values := scopes[k].values[s.name.text := s.name.place])];
      ok := true;
    }

    method CheckStmt(s: Stmt) returns (ok: bool)
      requires Valid() && OnceStmt(s) && IdsStmt(s) !! captures.Keys
      modifies this
      ensures ok <==> old(scopes) != [] && AcceptedStmt(s, old(scopes))
      ensures ok ==> Valid() && scopes == old(scopes) && ExactStmt(s, scopes, captures)
      ensures ok ==> Step(old(Now()), Now(), IdsStmt(s), Escaping(scopes, currentLambda, FreeStmt(s)))
      decreases s, 2
    {
      match s {
        case Let(_, init) => ok := CheckExpr(init);
        case Assign(target, v) =>
          var found := LookupOwner(target);
          if found.None? { return false; }
          ok := CheckExpr(v);
        case Other(_, _) => ok := CheckOther(s);
      }
    }

    method CheckOther(s: Stmt) returns (ok: bool)
      requires s.Other? && Valid() && OnceStmt(s) && IdsStmt(s) !! captures.Keys
      modifies this
      ensures ok <==> old(scopes) != [] && AcceptedStmt(s, old(scopes))
      ensures ok ==> Valid() && scopes == old(scopes) && ExactStmt(s, scopes, captures)
      ensures ok ==> Step(old(Now()), Now(), IdsStmt(s), Escaping(scopes, currentLambda, FreeStmt(s)))
      decreases s, 1
    {
      hide ExactAll, ExactBranch, AcceptedAll, AcceptedBranches, FreeAll, FreeBranches, IdsAll, IdsBranches, OnceAll, OnceBranches, Escaping, Step, ValidAt, Same;
      ghost var start := Now();
      CurrentIsRecorded();
      var es, bs := s.exprs, s.branches;
      ok := CheckAll(es);
      if !ok { return; }
      ghost var middle, first := Now(), Escaping(scopes, currentLambda, FreeAll(es));
      StepKeys(start, middle, IdsAll(es), first);
      ok := CheckBranches(bs);
      if !ok { return; }
      ghost var second := Escaping(scopes, currentLambda, FreeBranches(bs));
      StepTrans(start, middle, Now(), IdsAll(es), IdsBranches(bs), first, second);
      EscapingUnion(scopes, currentLambda, FreeAll(es), FreeBranches(bs));
      ExactAllKept(es, scopes, middle.captures, captures);
    }

    method CheckBranches(bs: seq<Branch>) returns (ok: bool)
      requires Valid() && OnceBranches(bs) && IdsBranches(bs) !! captures.Keys
      modifies this
      ensures ok <==> old(scopes) != [] && AcceptedBranches(bs, old(scopes))
      ensures ok ==> Valid() && scopes == old(scopes) && currentLambda == old(currentLambda)
      ensures ok ==> forall b :: b in bs ==> ExactBranch(b, scopes, captures)
      ensures ok ==> Step(old(Now()), Now(), IdsBranches(bs), Escaping(scopes, currentLambda, FreeBranches(bs)))
      decreases bs, 0
    {
      hide ExactBranch, AcceptedBranch, FreeBranch, IdsBody, OnceBody, OnceBranches, Escaping, Step, ValidAt, Same;
      ghost var start, ids, escaping := Now(), {}, {};
      StepNothing(start);
      CurrentIsRecorded();
      NoBranches(bs, scopes, currentLambda);
      for i := 0 to |bs|
        invariant Valid() && scopes == old(scopes) && currentLambda == old(currentLambda)
        invariant forall k :: 0 <= k < i ==> ExactBranch(bs[k], scopes, captures)
        invariant ids == IdsBranches(bs[..i]) && Step(start, Now(), ids, escaping)
        invariant escaping == Escaping(scopes, currentLambda, FreeBranches(bs[..i]))
        invariant forall k :: 0 <= k < i ==> AcceptedBranch(bs[k], scopes)
      {
        ghost var before := Now();
        OnceBranchPrefix(bs, i);
        OneMoreBranch(bs, i, scopes, currentLambda);
        StepKeys(start, before, ids, escaping);
        ok := CheckBranch(bs[i]);
        if !ok { return; }
        ghost var more := Escaping(scopes, currentLambda, FreeBranch(bs[i]));
        StepTrans(start, before, Now(), ids, IdsBody(bs[i].body), escaping, more);
        EarlierBranchesKept(bs, i, scopes, before.captures, captures);
        ids, escaping := ids + IdsBody(bs[i].body), escaping + more;
      }
      assert bs[..|bs|] == bs;
      ok := true;
    }

    method CheckBranch(b: Branch) returns (ok: bool)
      requires Valid() && OnceBody(b.body) && IdsBody(b.body) !! captures.Keys
      modifies this
      ensures ok <==> old(scopes) != [] && AcceptedBranch(b, old(scopes))
      ensures ok ==> Valid() && scopes == old(scopes) && ExactBranch(b, scopes, captures) && currentLambda == old(currentLambda)
      ensures ok ==> Step(old(Now()), Now(), IdsBody(b.body), Escaping(scopes, currentLambda, FreeBranch(b)))
      decreases b
    {
      hide ExactBody, AcceptedBody, FreeBody, IdsBody, OnceBody, Escaping, Step, ValidAt, Same;
      var outer := scopes;
      ghost var start := Now();
      CurrentIsRecorded();
      scopes := scopes + [Frame(currentLambda, if b.binder.Some? then Bind([b.binder.value]) else map[])];
      PushedValid(start, scopes[|scopes| - 1]);
      ghost var inside := Now();
      ok := CheckBody(b.body);
      if !ok { return; }
      ghost var checked := Now();
      scopes := outer;
      PoppedValid(start, checked, IdsBody(b.body), Escaping(inside.scopes, currentLambda, FreeBody(b.body)), inside);
      BranchEscapes(b, outer, currentLambda);
    }

    method CheckAll(es: seq<Expr>) returns (ok: bool)
      requires Valid() && OnceAll(es) && IdsAll(es) !! captures.Keys
      modifies this
      ensures ok <==> AcceptedAll(es, old(scopes))
      ensures ok ==> Valid() && scopes == old(scopes) && currentLambda == old(currentLambda) && ExactAll(es, scopes, captures)
      ensures ok ==> Step(old(Now()), Now(), IdsAll(es), Escaping(scopes, currentLambda, FreeAll(es)))
      decreases es, 0
    {
      hide Exact, ExactAll, Accepted, Free, FreeAll, Ids, IdsAll, Once, OnceAll, Step, Escaping, Valid, Same;
      ghost var start, ids, escaping := Now(), {}, {};
      StepNothing(start);
      CurrentIsRecorded();
      NoExprs(es, scopes, currentLambda, captures);
      for i := 0 to |es|
        invariant Valid() && scopes == old(scopes) && currentLambda == old(currentLambda) && ExactAll(es[..i], scopes, captures)
        invariant ids == IdsAll(es[..i]) && escaping == Escaping(scopes, currentLambda, FreeAll(es[..i])) && Step(start, Now(), ids, escaping)
        invariant forall k :: 0 <= k < i ==> Accepted(es[k], scopes)
      {
        ghost var before := Now();
        OncePrefix(es, i);
        OneMore(es, i, scopes, currentLambda);
        StepKeys(start, before, ids, escaping);
        ok := CheckExpr(es[i]);
        if !ok { return; }
        ghost var more := Escaping(scopes, currentLambda, Free(es[i]));
        StepTrans(start, before, Now(), ids, Ids(es[i]), escaping, more);
        ExactAllKept(es[..i], scopes, before.captures, captures);
        ExactSnoc(es, i, scopes, captures);
        ids, escaping := ids + Ids(es[i]), escaping + more;
      }
      assert es[..|es|] == es;
      ok := true;
    }

    lemma RecordedOnce(lambda: nat)
      requires Valid()
      ensures lambda in captures ==> NoRepeats(captures[lambda])
    {}

    lemma CurrentIsRecorded()
      requires Valid()
      ensures currentLambda.Some? ==> currentLambda.value in captures
      ensures scopes != [] && scopes[|scopes| - 1].lambda == currentLambda
    {
      assert scopes[|scopes| - 1] in scopes;
    }
  }

  lemma NoExprs(es: seq<Expr>, scopes: seq<Frame>, lambda: Option<nat>, r: Recorded)
    ensures IdsAll(es[..0]) == {} && Escaping(scopes, lambda, FreeAll(es[..0])) == {} && ExactAll(es[..0], scopes, r)
  {}

  lemma OneMore(es: seq<Expr>, i: nat, scopes: seq<Frame>, lambda: Option<nat>)
    requires i < |es|
    ensures es[i] in es
    ensures IdsAll(es[..i + 1]) == IdsAll(es[..i]) + Ids(es[i])
    ensures Escaping(scopes, lambda, FreeAll(es[..i + 1])) == Escaping(scopes, lambda, FreeAll(es[..i])) + Escaping(scopes, lambda, Free(es[i]))
  {
    assert es[..i + 1][..i] == es[..i];
    EscapingUnion(scopes, lambda, FreeAll(es[..i]), Free(es[i]));
  }

  lemma ExactSnoc(es: seq<Expr>, i: nat, scopes: seq<Frame>, r: Recorded)
    requires i < |es| && ExactAll(es[..i], scopes, r) && Exact(es[i], scopes, r)
    ensures ExactAll(es[..i + 1], scopes, r)
  {
    hide Exact;
  }

  lemma {:induction false} OncePrefix(es: seq<Expr>, i: nat)
    requires OnceAll(es) && i < |es|
    ensures OnceAll(es[..i]) && Once(es[i]) && IdsAll(es[..i]) !! Ids(es[i])
    ensures Ids(es[i]) <= IdsAll(es) && IdsAll(es[..i]) <= IdsAll(es)
  {
    var k := |es| - 1;
    if i < k {
      OncePrefix(es[..k], i);
      assert es[..k][..i] == es[..i];
    }
  }

  // Bindings among some captures that belong to a scope outside the lambda.
  function Outside(scopes: seq<Frame>, lambda: Option<nat>, cs: set<Capture>): set<Capture> {
    set c | c in cs && Lookup(scopes, c.name).Some? && Lookup(scopes, c.name).value.lambda != lambda
  }

  lemma OutsideNothing(scopes: seq<Frame>, lambda: Option<nat>)
    ensures Outside(scopes, lambda, Elements([])) == {}
  {}

  lemma OneMoreOutside(scopes: seq<Frame>, lambda: Option<nat>, cs: seq<Capture>, i: nat)
    requires i < |cs|
    ensures var found := Lookup(scopes, cs[i].name);
      Outside(scopes, lambda, Elements(cs[..i + 1]))
        == Outside(scopes, lambda, Elements(cs[..i])) + (if found.Some? && found.value.lambda != lambda then {cs[i]} else {})
  {
    assert Elements(cs[..i + 1]) == Elements(cs[..i]) + {cs[i]};
  }

  lemma OutsideResolved(scopes: seq<Frame>, lambda: Option<nat>, names: set<string>)
    ensures Outside(scopes, lambda, Resolved(scopes, names)) == Escaping(scopes, lambda, names)
  {
    hide Lookup;
  }

  lemma EnterLambda(start: Snapshot, e: Expr)
    requires e.Lambda? && ValidAt(start)
    ensures ValidAt(Snapshot(Push(start.scopes, Some(e.id), Bind(e.params)), Some(e.id), start.captures[e.id := []]))
  {}

  // The state once the lambda's body is checked.
  ghost predicate Left(start: Snapshot, left: Snapshot, e: Expr)
    requires e.Lambda?
  {
    && left.scopes == start.scopes && left.lambda == start.lambda && ValidAt(left)
    && left.captures.Keys == start.captures.Keys + Ids(e) && e.id in left.captures
    && (forall k :: k in start.captures ==> left.captures[k] == start.captures[k])
    && Elements(left.captures[e.id]) == Resolved(start.scopes, Free(e))
    && Exact(e, start.scopes, left.captures)
  }

  lemma LeaveLambda(start: Snapshot, checked: Snapshot, e: Expr)
    requires e.Lambda? && ValidAt(start) && Once(e) && Ids(e) !! start.captures.Keys
    requires ValidAt(checked) && ExactBody(e.body, Push(start.scopes, Some(e.id), Bind(e.params)), checked.captures)
    requires var scopes := Push(start.scopes, Some(e.id), Bind(e.params));
      Step(Snapshot(scopes, Some(e.id), start.captures[e.id := []]), checked, IdsBody(e.body), Escaping(scopes, Some(e.id), FreeBody(e.body)))
    ensures Left(start, Snapshot(start.scopes, start.lambda, checked.captures), e)
  {
    hide FreeBody, IdsBody, OnceBody, Escaping, Resolved, ExactBody, RecordsReads;
    BindKeys(e.params);
    EscapingPushed(start.scopes, Some(e.id), Bind(e.params), FreeBody(e.body));
    NewLambda(start.scopes, e.id, Free(e));
    ReadsResolved(e, start.scopes, checked.captures[e.id]);
  }

  lemma PropagatedExactly(start: Snapshot, left: Snapshot, done: Snapshot, e: Expr)
    requires e.Lambda? && Ids(e) !! start.captures.Keys && ValidAt(start) && Left(start, left, e)
    requires done.scopes == left.scopes && done.lambda == left.lambda && done.captures.Keys == left.captures.Keys
    requires forall k :: k in done.captures && Some(k) != done.lambda ==> done.captures[k] == left.captures[k]
    requires done.lambda.Some? ==> Mine(done) == Mine(left) + Outside(done.scopes, done.lambda, Elements(left.captures[e.id]))
    ensures Exact(e, start.scopes, done.captures)
    ensures Step(start, done, Ids(e), Escaping(start.scopes, start.lambda, Free(e)))
  {
    hide Exact, Free, Escaping, Resolved, Outside, Ids;
    OutsideResolved(start.scopes, start.lambda, Free(e));
    if start.lambda.Some? { assert start.scopes[|start.scopes| - 1] in start.scopes; }
    ExactKept(e, start.scopes, left.captures, done.captures);
  }

  lemma NoStmts(body: seq<Stmt>, scopes: seq<Frame>, lambda: Option<nat>)
    requires scopes != []
    ensures ScopesAt(scopes, body, 0) == scopes
    ensures IdsBody(body[..0]) == {} && body[0..] == body
    ensures {} + Escaping(scopes, lambda, FreeBody(body)) == Escaping(scopes, lambda, FreeBody(body))
  {}

  lemma NoMore(scopes: seq<Frame>, lambda: Option<nat>, escaping: set<Capture>, all: set<Capture>)
    requires escaping + Escaping(scopes, lambda, FreeBody([])) == all
    ensures escaping == all
  {}

  lemma {:induction false} OnceStmts(body: seq<Stmt>, i: nat)
    requires OnceBody(body) && i < |body|
    ensures OnceBody(body[..i]) && OnceStmt(body[i]) && IdsBody(body[..i]) !! IdsStmt(body[i])
    ensures IdsStmt(body[i]) <= IdsBody(body) && IdsBody(body[..i]) <= IdsBody(body)
  {
    var k := |body| - 1;
    if i < k {
      OnceStmts(body[..k], i);
      assert body[..k][..i] == body[..i];
    }
  }

  // Splitting off the next statement: what it reads, then what the rest reads behind it.
  lemma NextStmt(body: seq<Stmt>, i: nat, scopes: seq<Frame>, base: seq<Frame>, lambda: Option<nat>)
    requires i < |body| && base != [] && base[|base| - 1].lambda == lambda && scopes == ScopesAt(base, body, i)
    ensures body[i] in body && IdsBody(body[..i + 1]) == IdsBody(body[..i]) + IdsStmt(body[i])
    ensures ScopesAt(base, body, i + 1) == After(scopes, body[i])
    ensures Escaping(scopes, lambda, FreeBody(body[i..]))
      == Escaping(scopes, lambda, FreeStmt(body[i])) + Escaping(After(scopes, body[i]), lambda, FreeBody(body[i + 1..]))
  {
    hide FreeStmt, IdsStmt, Escaping;
    assert body[..i + 1][..i] == body[..i];
    assert body[i..][1..] == body[i + 1..];
    var rest := FreeBody(body[i + 1..]);
    EscapingUnion(scopes, lambda, FreeStmt(body[i]), rest - Bound(body[i]));
    if body[i].Let? { EscapingDeclared(scopes, body[i].name, lambda, rest); } else { assert rest - {} == rest; }
  }

  ghost predicate EarlierExact(body: seq<Stmt>, i: nat, base: seq<Frame>, r: Recorded)
    requires i <= |body| && base != []
  {
    forall k :: 0 <= k < i ==> ExactStmt(body[k], ScopesAt(base, body, k), r)
  }

  lemma EarlierKept(body: seq<Stmt>, i: nat, base: seq<Frame>, a: Recorded, b: Recorded)
    requires i < |body| && base != [] && Same(IdsBody(body[..i]), a, b) && EarlierExact(body, i, base, a)
    requires ExactStmt(body[i], ScopesAt(base, body, i), b)
    ensures EarlierExact(body, i + 1, base, b)
  {
    hide ExactStmt, IdsStmt;
    forall k | 0 <= k < i ensures ExactStmt(body[k], ScopesAt(base, body, k), b) {
      StmtIds(body[..i], k);
      ExactStmtKept(body[k], ScopesAt(base, body, k), a, b);
    }
  }

  lemma DeclaredValid(s: Snapshot, n: Name)
    requires ValidAt(s)
    ensures ValidAt(s.(scopes := Declare(s.scopes, n)))
  {
    var k := |s.scopes| - 1;
    forall f | f in Declare(s.scopes, n) && f.lambda.Some? ensures f.lambda.value in s.captures {
      if f in s.scopes[..k] { assert f in s.scopes; } else { assert s.scopes[k] in s.scopes; }
    }
  }

  // ---- captures reach outwards -------------------------------------------------------------------------

  // The places of everything declared inside an expression.
  function Declares(e: Expr): set<nat> {
    match e
    case Var(_) => {}
    case Node(es) => DeclaresAll(es)
    case Lambda(_, ps, body) => (set p | p in ps :: p.place) + DeclaresBody(body)
  }

  function DeclaresAll(es: seq<Expr>): (r: set<nat>)
    ensures forall e :: e in es ==> Declares(e) <= r
  {
    if es == [] then {}
    else
      assert es == es[..|es| - 1] + [es[|es| - 1]];
      DeclaresAll(es[..|es| - 1]) + Declares(es[|es| - 1])
  }

  function DeclaresBody(body: seq<Stmt>): (r: set<nat>)
    ensures forall i :: 0 <= i < |body| ==> DeclaresStmt(body[i]) <= r
  {
    if body == [] then {} else DeclaresBody(body[..|body| - 1]) + DeclaresStmt(body[|body| - 1])
  }

  function DeclaresStmt(s: Stmt): set<nat> {
    match s
    case Let(n, init) => {n.place} + Declares(init)
    case Assign(_, v) => Declares(v)
    case Other(es, bs) => DeclaresAll(es) + DeclaresBranches(bs)
  }

  function DeclaresBranches(bs: seq<Branch>): (r: set<nat>)
    ensures forall i :: 0 <= i < |bs| ==> DeclaresBranch(bs[i]) <= r
  {
    if bs == [] then {} else DeclaresBranches(bs[..|bs| - 1]) + DeclaresBranch(bs[|bs| - 1])
  }

  function DeclaresBranch(b: Branch): set<nat> {
    (if b.binder.Some? then {b.binder.value.place} else {}) + DeclaresBody(b.body)
  }

  // The capture is of a free name, and of the binding that name has there.
  predicate OfFree(scopes: seq<Frame>, free: set<string>, c: Capture) {
    c.name in free && Lookup(scopes, c.name).Some? && Lookup(scopes, c.name).value.place == c.place
  }

  lemma {:induction false} BindPlaces(ns: seq<Name>)
    ensures forall n :: n in Bind(ns) ==> exists p :: p in ns && p.place == Bind(ns)[n]
  {
    if ns != [] { BindPlaces(ns[..|ns| - 1]); }
  }

  // A capture of something declared further out than the pushed scope is one of the scopes below.
  lemma ThroughPushed(scopes: seq<Frame>, lambda: Option<nat>, ps: seq<Name>, free: set<string>, c: Capture)
    requires OfFree(Push(scopes, lambda, Bind(ps)), free, c) && c.place !in (set p | p in ps :: p.place)
    ensures OfFree(scopes, free - Texts(ps), c)
  {
    BindPlaces(ps);
    BindKeys(ps);
    LookupPushed(scopes, lambda, Bind(ps), c.name);
  }

  lemma {:induction false} ThroughDeclared(scopes: seq<Frame>, body: seq<Stmt>, i: nat, c: Capture)
    requires scopes != [] && i < |body| && c.place !in DeclaresBody(body)
    requires OfFree(ScopesAt(scopes, body, i), FreeStmt(body[i]), c)
    ensures OfFree(scopes, FreeBody(body), c)
  {
    LookupBack(scopes, body, i, c);
    FreeFrom(body, i, c.name);
  }

  lemma {:induction false} LookupBack(scopes: seq<Frame>, body: seq<Stmt>, i: nat, c: Capture)
    requires scopes != [] && i <= |body| && c.place !in DeclaresBody(body)
    requires var f := Lookup(ScopesAt(scopes, body, i), c.name); f.Some? && f.value.place == c.place
    ensures var f := Lookup(scopes, c.name); f.Some? && f.value.place == c.place
    ensures forall j :: 0 <= j < i ==> c.name !in Bound(body[j])
  {
    if i > 0 {
      var s := body[i - 1];
      if s.Let? {
        LookupDeclared(ScopesAt(scopes, body, i - 1), s.name, c.name);
        assert s.name.place in DeclaresStmt(s);
      }
      LookupBack(scopes, body, i - 1, c);
    }
  }

  lemma {:induction false} FreeFrom(body: seq<Stmt>, i: nat, n: string)
    requires i < |body| && n in FreeStmt(body[i]) && forall j :: 0 <= j < i ==> n !in Bound(body[j])
    ensures n in FreeBody(body)
  {
    if i > 0 { FreeFrom(body[1..], i - 1, n); }
  }

  lemma {:induction false} ExprReach(e: Expr, scopes: seq<Frame>, r: Recorded, id: nat, c: Capture)
    requires Exact(e, scopes, r) && id in Ids(e) && id in r && c in r[id] && c.place !in Declares(e)
    ensures OfFree(scopes, Free(e), c)
    decreases e
  {
    match e
    case Node(es) => AllReach(es, scopes, r, id, c);
    case Lambda(own, ps, body) =>
      if id == own {
        ReadsResolved(e, scopes, r[own]);
        assert c in Elements(r[own]);
      } else {
        BodyReach(body, Push(scopes, Some(own), Bind(ps)), r, id, c);
        ThroughPushed(scopes, Some(own), ps, FreeBody(body), c);
      }
  }

  lemma {:induction false} AllReach(es: seq<Expr>, scopes: seq<Frame>, r: Recorded, id: nat, c: Capture)
    requires ExactAll(es, scopes, r) && id in IdsAll(es) && id in r && c in r[id] && c.place !in DeclaresAll(es)
    ensures OfFree(scopes, FreeAll(es), c)
    decreases es
  {
    hide Exact, Free, Declares;
    var k := |es| - 1;
    assert es[k] in es;
    if id in Ids(es[k]) { ExprReach(es[k], scopes, r, id, c); } else { AllReach(es[..k], scopes, r, id, c); }
  }

  lemma {:induction false} BodyReach(body: seq<Stmt>, scopes: seq<Frame>, r: Recorded, id: nat, c: Capture)
    requires scopes != [] && ExactBody(body, scopes, r) && id in IdsBody(body) && id in r && c in r[id] && c.place !in DeclaresBody(body)
    ensures OfFree(scopes, FreeBody(body), c)
    decreases body
  {
    hide FreeBody, OfFree;
    var i := StmtWith(body, id);
    assert body[i] in body;
    StmtReach(body[i], ScopesAt(scopes, body, i), r, id, c);
    ThroughDeclared(scopes, body, i, c);
  }

  lemma {:induction false} StmtWith(body: seq<Stmt>, id: nat) returns (i: nat)
    requires id in IdsBody(body)
    ensures i < |body| && id in IdsStmt(body[i])
  {
    i := |body| - 1;
    if id !in IdsStmt(body[i]) { i := StmtWith(body[..i], id); }
  }

  lemma {:induction false} StmtReach(s: Stmt, scopes: seq<Frame>, r: Recorded, id: nat, c: Capture)
    requires scopes != [] && ExactStmt(s, scopes, r) && id in IdsStmt(s) && id in r && c in r[id] && c.place !in DeclaresStmt(s)
    ensures OfFree(scopes, FreeStmt(s), c)
    decreases s
  {
    match s
    case Let(_, init) => ExprReach(init, scopes, r, id, c);
    case Assign(_, v) => ExprReach(v, scopes, r, id, c);
    case Other(es, bs) => if id in IdsAll(es) { AllReach(es, scopes, r, id, c); } else { BranchesReach(bs, scopes, r, id, c); }
  }

  lemma {:induction false} BranchesReach(bs: seq<Branch>, scopes: seq<Frame>, r: Recorded, id: nat, c: Capture)
    requires scopes != [] && (forall b :: b in bs ==> ExactBranch(b, scopes, r))
    requires id in IdsBranches(bs) && id in r && c in r[id] && c.place !in DeclaresBranches(bs)
    ensures OfFree(scopes, FreeBranches(bs), c)
    decreases bs
  {
    hide FreeBranch, ExactBody, FreeBody;
    var k := |bs| - 1;
    var b := bs[k];
    assert b in bs && ExactBranch(b, scopes, r);
    if id in IdsBody(b.body) {
      var ps := if b.binder.Some? then [b.binder.value] else [];
      BodyReach(b.body, Inner(b, scopes), r, id, c);
      ThroughPushed(scopes, scopes[|scopes| - 1].lambda, ps, FreeBody(b.body), c);
      BranchFrees(b);
    } else {
      BranchesReach(bs[..k], scopes, r, id, c);
    }
  }

  lemma BranchFrees(b: Branch)
    ensures FreeBranch(b) == FreeBody(b.body) - Texts(if b.binder.Some? then [b.binder.value] else [])
  {}

  // What a lambda at any depth inside another captures from outside that one, that one has
  // captured too.
  lemma InnerCapturesReach(e: Expr, scopes: seq<Frame>, r: Recorded, inner: nat, c: Capture)
    requires e.Lambda? && Exact(e, scopes, r) && inner in IdsBody(e.body) && inner in r && c in r[inner] && c.place !in Declares(e)
    ensures e.id in r && c in r[e.id]
  {
    hide RecordsReads, Free, Declares;
    ExprReach(e, scopes, r, inner, c);
    ReadsResolved(e, scopes, r[e.id]);
    assert c == Capture(c.name, Lookup(scopes, c.name).value.place);
    assert c in Elements(r[e.id]);
  }

  // A lambda that only assigns a variable does not capture it.
  lemma AssignedOnlyIsNotCaptured(scopes: seq<Frame>, r: Recorded, id: nat, n: string)
    requires Exact(Lambda(id, [], [Assign(n, Node([]))]), scopes, r)
    ensures id in r && Elements(r[id]) == {}
  {
    var body := [Assign(n, Node([]))];
    ReadsResolved(Lambda(id, [], body), scopes, r[id]);
    assert Free(Node([])) == FreeAll([]) == {} && FreeStmt(body[0]) == {};
    assert body[1..] == [] && FreeBody([]) == {};
    assert FreeBody(body) == {};
  }

  lemma PushedValid(s: Snapshot, f: Frame)
    requires ValidAt(s) && f.lambda == s.lambda
    ensures ValidAt(s.(scopes := s.scopes + [f]))
  {}

  // Back in the outer scopes.
  lemma PoppedValid(start: Snapshot, checked: Snapshot, ids: set<nat>, escaping: set<Capture>, inside: Snapshot)
    requires ValidAt(start) && ValidAt(checked) && Step(inside, checked, ids, escaping)
    requires inside.lambda == start.lambda && inside.captures == start.captures
    ensures ValidAt(checked.(scopes := start.scopes)) && Step(start, checked.(scopes := start.scopes), ids, escaping)
  {}

  lemma BranchEscapes(b: Branch, scopes: seq<Frame>, lambda: Option<nat>)
    requires scopes != [] && scopes[|scopes| - 1].lambda == lambda
    ensures Escaping(Inner(b, scopes), lambda, FreeBody(b.body)) == Escaping(scopes, lambda, FreeBranch(b))
  {
    hide Escaping, FreeBody;
    if b.binder.Some? {
      BindKeys([b.binder.value]);
      assert Texts([b.binder.value]) == {b.binder.value.text};
      EscapingPushed(scopes, lambda, Bind([b.binder.value]), FreeBody(b.body));
    } else {
      var none: map<string, nat> := map[];
      EscapingPushed(scopes, lambda, none, FreeBody(b.body));
      assert FreeBody(b.body) - none.Keys == FreeBranch(b);
    }
  }

  lemma NoBranches(bs: seq<Branch>, scopes: seq<Frame>, lambda: Option<nat>)
    ensures IdsBranches(bs[..0]) == {} && Escaping(scopes, lambda, FreeBranches(bs[..0])) == {}
  {}

  lemma {:induction false} OnceBranchPrefix(bs: seq<Branch>, i: nat)
    requires OnceBranches(bs) && i < |bs|
    ensures OnceBody(bs[i].body) && IdsBranches(bs[..i]) !! IdsBody(bs[i].body)
    ensures IdsBody(bs[i].body) <= IdsBranches(bs) && IdsBranches(bs[..i]) <= IdsBranches(bs)
  {
    var k := |bs| - 1;
    if i < k {
      OnceBranchPrefix(bs[..k], i);
      assert bs[..k][..i] == bs[..i];
    }
  }

  lemma OneMoreBranch(bs: seq<Branch>, i: nat, scopes: seq<Frame>, lambda: Option<nat>)
    requires i < |bs|
    ensures bs[i] in bs && IdsBranches(bs[..i + 1]) == IdsBranches(bs[..i]) + IdsBody(bs[i].body)
    ensures Escaping(scopes, lambda, FreeBranches(bs[..i + 1])) == Escaping(scopes, lambda, FreeBranches(bs[..i])) + Escaping(scopes, lambda, FreeBranch(bs[i]))
  {
    assert bs[..i + 1][..i] == bs[..i];
    EscapingUnion(scopes, lambda, FreeBranches(bs[..i]), FreeBranch(bs[i]));
  }

  lemma EarlierBranchesKept(bs: seq<Branch>, i: nat, scopes: seq<Frame>, a: Recorded, b: Recorded)
    requires i < |bs| && scopes != [] && Same(IdsBranches(bs[..i]), a, b)
    requires forall k :: 0 <= k < i ==> ExactBranch(bs[k], scopes, a)
    ensures forall k :: 0 <= k < i ==> ExactBranch(bs[k], scopes, b)
  {
    hide ExactBody, IdsBody;
    forall k | 0 <= k < i ensures ExactBranch(bs[k], scopes, b) {
      assert bs[k] in bs[..i];
      BranchIds(bs[..i], bs[k]);
      ExactBodyKept(bs[k].body, Inner(bs[k], scopes), a, b);
    }
  }
}
