// Building a program and reading it back.
module ArenaRoundTrip {
  import opened Wrappers
  import opened Arena
  import ArenaBuilder
  import ArenaReader
  import ArenaPaths

  // What the backend reads of a program built from an empty arena is the program, up to what it
  // does not follow: along every path it follows, the node that stands there. No lookup fails on the way.
  method BuildAndRead(fs: seq<Function>, ss: seq<Stmt>) returns (functions: seq<Function>, statements: seq<Stmt>, unsupported: bool)
    requires (forall f :: f in fs ==> ArenaBuilder.PlainFunction(f)) && ArenaBuilder.PlainBody(ss)
    ensures functions == ArenaReader.ViewFunctions(fs) && statements == ArenaReader.ViewBody(ss) && !unsupported
    ensures |functions| == |fs| && forall i :: 0 <= i < |fs| ==> ArenaPaths.Shows(ArenaPaths.F(functions[i]), ArenaPaths.F(fs[i]))
    ensures |statements| == |ss| && forall i :: 0 <= i < |ss| ==> ArenaPaths.Shows(ArenaPaths.S(statements[i]), ArenaPaths.S(ss[i]))
  {
    AllShown(fs, ss);
    hide *;
    var builder := new ArenaBuilder.KirArenaBuilder();
    builder.Program(fs, ss);
    var reader := new ArenaReader.Cgen(builder.arena);
    functions, statements := reader.ReadProgram(builder.topFunctions, builder.topStatements, fs, ss);
    unsupported := reader.unsupported;
  }

  lemma AllShown(fs: seq<Function>, ss: seq<Stmt>)
    ensures var r := ArenaReader.ViewFunctions(fs); |r| == |fs| && forall i :: 0 <= i < |fs| ==> ArenaPaths.Shows(ArenaPaths.F(r[i]), ArenaPaths.F(fs[i]))
    ensures var r := ArenaReader.ViewBody(ss); |r| == |ss| && forall i :: 0 <= i < |ss| ==> ArenaPaths.Shows(ArenaPaths.S(r[i]), ArenaPaths.S(ss[i]))
  {
    hide ArenaPaths.Shows;
    forall i | 0 <= i < |fs| ensures ArenaPaths.Shows(ArenaPaths.F(ArenaReader.ViewFunction(fs[i])), ArenaPaths.F(fs[i])) {
      ArenaPaths.ViewShows(ArenaPaths.F(fs[i]));
    }
    forall i | 0 <= i < |ss| ensures ArenaPaths.Shows(ArenaPaths.S(ArenaReader.ViewStmt(ss[i])), ArenaPaths.S(ss[i])) {
      ArenaPaths.ViewShows(ArenaPaths.S(ss[i]));
    }
  }

  // A parameter whose default is a lambda with a parameter of its own.
  const INNER: Function := Function("inner", [Param("q", None, "q")], [], [])
  const DEFAULT: Expr := Expr("lambda", Lambda(INNER), true, None, None, None, None, None, None, [], [], [], [], None, None)

  // The index recorded for it is not the index of its row.
  method LambdaDefault() returns (recorded: nat, ghost row: nat)
    ensures recorded != row
  {
    var builder := new ArenaBuilder.KirArenaBuilder();
    var ix;
    ghost var rows;
    var p := Param("p", Some(DEFAULT), "p");
    ix, rows := builder.Params([p]);
    assert !ArenaBuilder.Paramless(DEFAULT);
    assert ArenaBuilder.ParamlessOption([p][0].default) <==> ix[0] == rows[0];
    return ix[0], rows[0];
  }
}
