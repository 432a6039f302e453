// Member queries over whole runs of the gateway session: chunks in any order, and who is told what
// became of a request.
module GatewayQueries {
  import opened Wrappers
  import opened GatewaySteps
  import opened GatewaySafety

  // ---- the chunks of a request ------------------------------------------------------------------------

  datatype Arrival = Arrival(index: nat, part: Part)

  // The parts that count: the first of every index.
  function First(es: seq<Arrival>): map<nat, Part> {
    if es == [] then map[]
    else
      var m := First(es[..|es| - 1]);
      var e := es[|es| - 1];
      if e.index in m then m else m[e.index := e.part]
  }

  predicate AllArrived(m: map<nat, Part>, count: nat) { forall i :: 0 <= i < count ==> i in m }

  // The chunk reaches the pending request `id`, once the overdue ones are gone.
  predicate Reaches(s: State, a: Action, id: nat) {
    a.Chunk? && var e := Expire(s.session, a.order); a.nonce in e.chunks && e.chunks[a.nonce].id == id
  }

  // All chunks of a run that reached one request, whatever else happened in between.
  ghost function Arrivals(run: seq<Action>, id: nat): seq<Arrival>
    requires Runs(run)
  {
    if run == [] then []
    else
      var before, a := run[..|run| - 1], run[|run| - 1];
      Arrivals(before, id) + if Reaches(After(before), a, id) then [Arrival(a.index, a.part)] else []
  }

  // A pending request holds the first part of every index that reached it.
  ghost predicate Collected(r: Request, es: seq<Arrival>) {
    r.chunks == First(es) && (r.chunkCount == 0 <==> es == [])
  }

  ghost predicate AllCollected(run: seq<Action>)
    requires Runs(run)
  {
    && (forall n :: n in After(run).session.chunks ==> Collected(After(run).session.chunks[n], Arrivals(run, After(run).session.chunks[n].id)))
    && forall id :: id >= After(run).book.nextId ==> Arrivals(run, id) == []
  }

  lemma {:induction false} ExpireKeepsOrRemoves(s: Session, order: seq<string>)
    ensures forall n :: n in Expire(s, order).chunks ==> n in s.chunks && Expire(s, order).chunks[n] == s.chunks[n]
  {
    if order != [] { ExpireKeepsOrRemoves(s, order[..|order| - 1]); }
  }

  // Two pending requests are different ones.
  lemma PendingDiffer(s: State, m: string, n: string)
    requires Inv(s) && m in s.session.chunks && n in s.session.chunks && m != n
    ensures s.session.chunks[m].id != s.session.chunks[n].id
  {
    hide PendingIds, FailureIds, CompletingIds, Upto, SumBytes;
    var c := s.session.chunks;
    SumWithout(c, m);
    SumWithout(c - {m}, n);
    UptoCounts(s.book.nextId, c[m].id);
    assert Fates(s)[c[m].id] >= PendingIds(c)[c[m].id];
  }

  lemma PendingIsNumbered(s: State, n: string)
    requires Inv(s) && n in s.session.chunks
    ensures s.session.chunks[n].id < s.book.nextId
  {
    hide PendingIds, FailureIds, CompletingIds, Upto, SumBytes;
    SumWithout(s.session.chunks, n);
    UptoCounts(s.book.nextId, s.session.chunks[n].id);
    assert Fates(s)[s.session.chunks[n].id] >= PendingIds(s.session.chunks)[s.session.chunks[n].id];
  }

  // What was pending before, or a new request of this step.
  ghost predicate Kept(s: State, t: State) {
    && s.book.nextId <= t.book.nextId
    && forall n :: n in t.session.chunks ==>
      || (n in s.session.chunks && t.session.chunks[n] == s.session.chunks[n])
      || (t.session.chunks[n].id == s.book.nextId < t.book.nextId && t.session.chunks[n].chunks == map[] && t.session.chunks[n].chunkCount == 0)
  }

  // What a step other than a chunk leaves pending.
  lemma OtherStepsKeepRequests(s: State, a: Action)
    requires Enabled(s, a) && !a.Chunk?
    ensures Kept(s, Next(s, a))
  {
    hide Within, Recent, Expire, PendingIds, FailureIds;
    ExpireKeepsOrRemoves(s.session, Order(a));
    match a
    case Register(g, n, all, p, now, order) =>
      hide Kept;
      RegisterKeepsRequests(s, g, n, all, p, now, order);
    case _ =>
  }

  lemma RegisterKeepsRequests(s: State, guild: string, nonce: string, all: bool, presences: bool, now: int, order: seq<string>)
    ensures Kept(s, RegisterStep(s, guild, nonce, all, presences, now, order).0)
  {
    hide Within, Recent, Expire;
    ExpireKeepsOrRemoves(s.session, order);
  }

  // What a chunk leaves pending: what was, and the request it was stored in.
  ghost predicate KeptButStored(s: Session, t: Session, a: Action)
    requires a.Chunk?
  {
    forall n :: n in t.chunks ==> n in s.chunks && var r, q := s.chunks[n], t.chunks[n];
      if n == a.nonce && a.index !in r.chunks then q == Stored(r, a.index, a.count, a.part) else q == r
  }

  lemma ChunkKeepsRequests(s: State, a: Action)
    requires Enabled(s, a) && a.Chunk?
    ensures KeptButStored(s.session, Next(s, a).session, a) && Next(s, a).book.nextId == s.book.nextId
    ensures a.nonce in Next(s, a).session.chunks ==> a.nonce in s.session.chunks && Reaches(s, a, s.session.chunks[a.nonce].id)
    ensures forall id :: Reaches(s, a, id) ==> a.nonce in s.session.chunks && s.session.chunks[a.nonce].id == id
  {
    hide Expire, ChunkStep, Stored;
    ExpireKeepsOrRemoves(s.session, a.order);
    ChunkStores(s, a);
  }

  lemma ChunkStores(s: State, a: Action)
    requires Enabled(s, a) && a.Chunk?
    ensures var t := ChunkStep(s, a.guild, a.nonce, a.index, a.count, a.part, a.order).0;
      KeptButStored(Expire(s.session, a.order), t.session, a) && t.book.nextId == s.book.nextId
  {
    ChunkOutcomes(s, a);
    var e, t := Expire(s.session, a.order), ChunkStep(s, a.guild, a.nonce, a.index, a.count, a.part, a.order).0;
    hide Expire, ChunkStep, Stored, Enabled, PartBytes;
    if a.nonce in e.chunks { OutcomeKeeps(e, t.session, a); }
  }

  function WithChunk(s: Session, a: Action): Session
    requires a.Chunk? && a.nonce in s.chunks
  {
    s.(chunks := s.chunks[a.nonce := Stored(s.chunks[a.nonce], a.index, a.count, a.part)], chunkBytes := s.chunkBytes + PartBytes(a.part))
  }

  // What a chunk makes of the session: nothing when it is there already, its request failed, the chunk stored, and then removed when
  // it was the last.
  ghost predicate Outcome(s: Session, t: Session, a: Action)
    requires a.Chunk? && a.nonce in s.chunks
  {
    || (a.index in s.chunks[a.nonce].chunks && t == s)
    || t == Fail(s, a.nonce, MetadataMismatch) || t == Fail(s, a.nonce, AggregateExceeded)
    || (a.index !in s.chunks[a.nonce].chunks && (t == WithChunk(s, a) || t == Remove(WithChunk(s, a), a.nonce)))
  }

  lemma ChunkOutcomes(s: State, a: Action)
    requires Enabled(s, a) && a.Chunk?
    ensures var e, t := Expire(s.session, a.order), ChunkStep(s, a.guild, a.nonce, a.index, a.count, a.part, a.order).0;
      t.book.nextId == s.book.nextId && if a.nonce in e.chunks then Outcome(e, t.session, a) else t.session == e
  {
    hide Expire, Assemble, PartBytes, Enumerates, OverdueIn, Remove, Fail;
  }

  lemma OutcomeKeeps(s: Session, t: Session, a: Action)
    requires a.Chunk? && a.nonce in s.chunks && Outcome(s, t, a)
    ensures KeptButStored(s, t, a)
  {
    hide Stored, PartBytes;
  }

  lemma {:induction false} RunCollects(run: seq<Action>)
    requires Runs(run)
    ensures AllCollected(run)
    decreases |run|
  {
    hide Next, Enabled, Inv, Runs, After, Arrivals, AllCollected;
    if run == [] {
      NothingCollected();
    } else {
      var before, a := run[..|run| - 1], run[|run| - 1];
      RunUnfolds(run);
      RunCollects(before);
      RunKeepsInv(before);
      if a.Chunk? { ChunkCollects(run); } else { OtherStepCollects(run); }
    }
  }

  lemma NothingCollected()
    ensures AllCollected([])
  {}

  lemma RunUnfolds(run: seq<Action>)
    requires Runs(run) && run != []
    ensures var before, a := run[..|run| - 1], run[|run| - 1]; Runs(before) && Enabled(After(before), a) && After(run) == Next(After(before), a)
  {}

  lemma ArrivalsUnfold(run: seq<Action>, id: nat)
    requires Runs(run) && run != []
    ensures var before, a := run[..|run| - 1], run[|run| - 1];
      Arrivals(run, id) == if Reaches(After(before), a, id) then Arrivals(before, id) + [Arrival(a.index, a.part)] else Arrivals(before, id)
  {}

  lemma ChunkCollects(run: seq<Action>)
    requires run != [] && Runs(run) && Runs(run[..|run| - 1]) && run[|run| - 1].Chunk?
    requires AllCollected(run[..|run| - 1]) && Inv(After(run[..|run| - 1]))
    ensures AllCollected(run)
  {
    hide Next, Enabled, Inv, Runs, After, Reaches, Arrivals, Stored, First;
    var before, a := run[..|run| - 1], run[|run| - 1];
    RunUnfolds(run);
    var s, t := After(before), After(run);
    ChunkKeepsRequests(s, a);
    forall id: nat | id >= t.book.nextId ensures Arrivals(run, id) == [] {
      ArrivalsUnfold(run, id);
      if Reaches(s, a, id) { PendingIsNumbered(s, a.nonce); }
    }
    forall n | n in t.session.chunks ensures Collected(t.session.chunks[n], Arrivals(run, t.session.chunks[n].id)) {
      var r, q := s.session.chunks[n], t.session.chunks[n];
      assert Collected(r, Arrivals(before, r.id));
      StoredFields(r, a.index, a.count, a.part);
      ArrivalsUnfold(run, r.id);
      if n == a.nonce {
        NoneFirst();
        StoredPart(r, a.index, a.count, a.part);
        FirstSnoc(Arrivals(before, r.id), Arrival(a.index, a.part));
      } else if Reaches(s, a, r.id) {
        PendingDiffer(s, n, a.nonce);
      }
    }
  }

  lemma NoneFirst()
    ensures First([]) == map[]
  {}

  lemma StoredPart(r: Request, index: nat, count: nat, part: Part)
    ensures Stored(r, index, count, part).chunks == r.chunks[index := part] && Stored(r, index, count, part).chunkCount == count
  {}

  lemma OtherStepCollects(run: seq<Action>)
    requires run != [] && Runs(run) && Runs(run[..|run| - 1]) && !run[|run| - 1].Chunk?
    requires AllCollected(run[..|run| - 1])
    ensures AllCollected(run)
  {
    hide Next, Enabled, Runs, After, Arrivals, First;
    var before, a := run[..|run| - 1], run[|run| - 1];
    RunUnfolds(run);
    var s, t := After(before), After(run);
    OtherStepsKeepRequests(s, a);
    NoneFirst();
    forall id: nat | id >= t.book.nextId ensures Arrivals(run, id) == [] { ArrivalsUnfold(run, id); }
    forall n | n in t.session.chunks ensures Collected(t.session.chunks[n], Arrivals(run, t.session.chunks[n].id)) {
      ArrivalsUnfold(run, t.session.chunks[n].id);
    }
  }

  lemma FirstSnoc(es: seq<Arrival>, e: Arrival)
    ensures First(es + [e]) == if e.index in First(es) then First(es) else First(es)[e.index := e.part]
  {
    assert (es + [e])[..|es|] == es;
  }

  lemma {:induction false} CountAll(keys: set<nat>, count: nat)
    requires (forall i :: i in keys ==> i < count) && forall i :: 0 <= i < count ==> i in keys
    ensures |keys| == count
  {
    if count > 0 { CountAll(keys - {count - 1}, count - 1); } else { assert keys == {}; }
  }

  // While a request is pending it holds the first part of every index that reached it, and an
  // index is missing.
  lemma PendingCollects(run: seq<Action>, nonce: string)
    requires Runs(run) && nonce in After(run).session.chunks
    ensures var r := After(run).session.chunks[nonce];
      var es := Arrivals(run, r.id);
      r.chunks == First(es) && (r.chunkCount == 0 <==> es == []) && (es != [] ==> !AllArrived(First(es), r.chunkCount))
  {
    hide After, Runs, Arrivals, First;
    RunCollects(run);
    RunKeepsInv(run);
    var r := After(run).session.chunks[nonce];
    assert RequestOk(r);
    if r.chunkCount > 0 && AllArrived(r.chunks, r.chunkCount) { CountAll(r.chunks.Keys, r.chunkCount); }
  }

  // The chunk matches the request and stays within the byte limits.
  predicate Acceptable(e: Session, a: Action)
    requires a.Chunk? && a.nonce in e.chunks
  {
    var r := e.chunks[a.nonce];
    && r.guild == a.guild && (r.chunkCount == 0 || r.chunkCount == a.count)
    && (a.index in r.chunks || (r.bytes + PartBytes(a.part) <= AGGREGATE_LIMIT && e.chunkBytes + PartBytes(a.part) <= AGGREGATE_LIMIT))
  }

  // In every run, whatever lies between the chunks of a request and in whatever order they come,
  // with whatever duplicates, an acceptable chunk completes the query exactly when all indexes
  // have arrived, and the result lists the first parts by index.
  lemma AnyOrderCompletes(run: seq<Action>)
    requires Runs(run) && run != [] && run[|run| - 1].Chunk?
    requires Runs(run[..|run| - 1])
    requires var s, a := After(run[..|run| - 1]), run[|run| - 1]; a.nonce in Expire(s.session, a.order).chunks
    ensures var s, a := After(run[..|run| - 1]), run[|run| - 1];
      var e := Expire(s.session, a.order);
      var r := e.chunks[a.nonce];
      var parts := First(Arrivals(run, r.id));
      && Enabled(s, a)
      && var answer := ChunkStep(s, a.guild, a.nonce, a.index, a.count, a.part, a.order).1;
      && (answer.Complete? <==> Acceptable(e, a) && AllArrived(parts, a.count))
      && (answer.Complete? ==> answer.result == Result(r.id, a.guild, a.nonce, Assemble(parts, a.count)))
  {
    hide After, Runs, Arrivals, First, Expire, Assemble, PartBytes, Inv, SumParts;
    var before, a := run[..|run| - 1], run[|run| - 1];
    var s := After(before);
    RunUnfolds(run);
    var e := Expire(s.session, a.order);
    ExpireKeepsOrRemoves(s.session, a.order);
    var r := e.chunks[a.nonce];
    PendingCollects(before, a.nonce);
    RunKeepsInv(before);
    PendingBelow(s, a.nonce);
    ArrivalsUnfold(run, r.id);
    FirstSnoc(Arrivals(before, r.id), Arrival(a.index, a.part));
    NoneFirst();
    if Acceptable(e, a) && a.index !in r.chunks {
      StoredCount(r, a.index, a.count, a.part);
      assert r.chunks[a.index := a.part] == First(Arrivals(run, r.id));
    }
  }

  lemma PendingBelow(s: State, nonce: string)
    requires Inv(s) && nonce in s.session.chunks
    ensures RequestOk(s.session.chunks[nonce])
  {}

  lemma StoredCount(r: Request, index: nat, count: nat, part: Part)
    requires RequestOk(r) && index < count <= MAX_CHUNKS && index !in r.chunks && (r.chunkCount == 0 || r.chunkCount == count)
    ensures |r.chunks[index := part]| == count <==> AllArrived(r.chunks[index := part], count)
  {
    hide PartBytes, SumParts;
    var keys := r.chunks[index := part].Keys;
    assert keys == r.chunks.Keys + {index};
    AllPresent(keys, count);
    if AllArrived(r.chunks[index := part], count) { CountAll(keys, count); }
  }

  // The parts depend on which arrivals there were, not on their order or number, when no index
  // comes with two contents.
  predicate OneContent(es: seq<Arrival>) { forall e, f :: e in es && f in es && e.index == f.index ==> e == f }

  lemma {:induction false} FirstIsContent(es: seq<Arrival>)
    requires OneContent(es)
    ensures forall i, p :: (i in First(es) && First(es)[i] == p) <==> Arrival(i, p) in es
  {
    if es != [] {
      var n := |es| - 1;
      var e := es[n];
      assert es == es[..n] + [e];
      FirstIsContent(es[..n]);
      if e.index in First(es[..n]) { assert Arrival(e.index, First(es[..n])[e.index]) in es[..n]; }
      forall i, p ensures (i in First(es) && First(es)[i] == p) <==> Arrival(i, p) in es {
        assert Arrival(i, p) in es <==> Arrival(i, p) in es[..n] || Arrival(i, p) == e;
      }
    }
  }

  lemma SameArrivals(es: seq<Arrival>, fs: seq<Arrival>)
    requires OneContent(es) && forall e :: e in es <==> e in fs
    ensures First(es) == First(fs)
  {
    hide First;
    FirstIsContent(es);
    FirstIsContent(fs);
    forall i ensures i in First(es) <==> i in First(fs) {
      if i in First(es) { assert Arrival(i, First(es)[i]) in fs; }
      if i in First(fs) { assert Arrival(i, First(fs)[i]) in es; }
    }
    forall i | i in First(es) ensures First(es)[i] == First(fs)[i] { assert Arrival(i, First(es)[i]) in fs; }
  }

  // Two runs in which the same chunks reach a request, in any two orders and with anything in
  // between, give the same answer.
  lemma ArrivalOrderDoesNotMatter(run: seq<Action>, run': seq<Action>, id: nat, id': nat)
    requires Runs(run) && run != [] && run[|run| - 1].Chunk? && Runs(run[..|run| - 1])
    requires Runs(run') && run' != [] && run'[|run'| - 1].Chunk? && Runs(run'[..|run'| - 1])
    requires var s, a := After(run[..|run| - 1]), run[|run| - 1]; Reaches(s, a, id) && Acceptable(Expire(s.session, a.order), a)
    requires var s, a := After(run'[..|run'| - 1]), run'[|run'| - 1]; Reaches(s, a, id') && Acceptable(Expire(s.session, a.order), a)
    requires run[|run| - 1].count == run'[|run'| - 1].count
    requires OneContent(Arrivals(run, id)) && forall e :: e in Arrivals(run, id) <==> e in Arrivals(run', id')
    ensures var s, a := After(run[..|run| - 1]), run[|run| - 1];
      var s', a' := After(run'[..|run'| - 1]), run'[|run'| - 1];
      && Enabled(s, a) && Enabled(s', a')
      && var answer, answer' := ChunkStep(s, a.guild, a.nonce, a.index, a.count, a.part, a.order).1, ChunkStep(s', a'.guild, a'.nonce, a'.index, a'.count, a'.part, a'.order).1;
      && (answer.Complete? <==> answer'.Complete?)
      && (answer.Complete? ==> answer.result.content == answer'.result.content)
  {
    hide ChunkStep, Arrivals, Runs, After, First, Acceptable, Assemble, Enabled, AllArrived, OneContent, Expire;
    SameArrivals(Arrivals(run, id), Arrivals(run', id'));
    AnyOrderCompletes(run);
    AnyOrderCompletes(run');
  }

  // ---- who is told --------------------------------------------------------------------------------------

  // Every session of the run starts with nothing queued or pending.
  ghost predicate StartsClean(run: seq<Action>)
    requires Runs(run)
  {
    run == [] || (
      var before, a := run[..|run| - 1], run[|run| - 1];
      var s := After(before).session;
      StartsClean(before) && (a.Bind? && s.socket != Socket.Open ==> s.chunks == map[] && s.failures == []))
  }

  lemma OwesNothingExactly(s: Session)
    ensures Outstanding(s) == multiset{} <==> s.chunks == map[] && s.failures == []
  {
    if s.chunks != map[] {
      var k := Pick(s.chunks);
      assert s.chunks[k].id in Outstanding(s);
    }
    if s.failures != [] { assert s.failures[|s.failures| - 1].id in Outstanding(s); }
  }

  // A run drops a request exactly when one of its sessions starts over something queued or pending.
  lemma {:induction false} NoneDroppedExactly(run: seq<Action>)
    requires Runs(run)
    ensures After(run).book.lost == multiset{} <==> StartsClean(run)
    decreases |run|
  {
    hide Next, Enabled, Runs, After, Outstanding;
    if run == [] {
      NothingDropped();
    } else {
      var before, a := run[..|run| - 1], run[|run| - 1];
      RunUnfolds(run);
      NoneDroppedExactly(before);
      OnlyBindDrops(After(before), a);
      OwesNothingExactly(After(before).session);
    }
  }

  lemma NothingDropped()
    ensures After([]).book.lost == multiset{}
  {}

  // In a run whose sessions start clean and whose last one has just ended with no result being
  // encoded, every request whose frame was written has been reported exactly once.
  lemma ReportedOnce(run: seq<Action>, id: nat)
    requires Runs(run) && run != [] && run[|run| - 1] == Unbind && StartsClean(run)
    requires Runs(run[..|run| - 1]) && After(run[..|run| - 1]).book.completing == [] && id < After(run).book.nextId
    ensures After(run).book.reported[id] == if id in After(run).book.unsent then 0 else 1
    ensures After(run).book.unsent[id] <= 1
  {
    hide Inv, Fates, StartsClean, Runs, After;
    var s := After(run[..|run| - 1]);
    RunUnfolds(run);
    RunKeepsInv(run[..|run| - 1]);
    EndedSessionHasReported(s, id);
    NoneDroppedExactly(run);
  }

  // ---- a result that fails to be encoded after its session ended ---------------------------------------

  // Its record is queued on the ended session, and the next one drops it. The caller of the chunk
  // still gets an error, but no record of the request is ever handed out.
  lemma LateRecordIsDropped(s: State, k: nat, reason: Reason, members: bool, presences: bool, now: int)
    requires Inv(s) && k < |s.book.completing| && s.book.sending.None? && (reason == EncodingFailed || reason == AggregateExceeded)
    ensures var ended := Next(s, Unbind);
      var late := Next(ended, Encoded(k, Some(reason)));
      var again := Next(late, Bind(members, presences, now));
      var id := s.book.completing[k].id;
      again.book.lost[id] == 1 && again.book.reported[id] == 0
  {
    hide Inv, Fates, PendingIds, FailureIds, CompletingIds;
    var id := s.book.completing[k].id;
    var ended := Next(s, Unbind);
    var late := Next(ended, Encoded(k, Some(reason)));
    var again := Next(late, Bind(members, presences, now));
    StepKeepsInv(s, Unbind);
    StepKeepsInv(ended, Encoded(k, Some(reason)));
    StepKeepsInv(late, Bind(members, presences, now));
    OneRecord(late.session.failures[0]);
    assert late.session.failures == [late.session.failures[0]];
    assert again.book.lost == late.book.lost + PendingIds(late.session.chunks) + FailureIds(late.session.failures);
    OneFate(again, id);
  }

  lemma OneRecord(f: Failure)
    ensures FailureIds([f]) == multiset{f.id}
  {
    assert [f][..0] == [];
  }

  // A request that was dropped was not reported.
  lemma OneFate(s: State, id: nat)
    requires Inv(s) && id in s.book.lost
    ensures s.book.lost[id] == 1 && s.book.reported[id] == 0
  {
    hide PendingIds, FailureIds, CompletingIds, Accounted;
    UptoCounts(s.book.nextId, id);
    assert Fates(s)[id] <= 1;
    assert Fates(s)[id] >= s.book.reported[id] + s.book.lost[id];
  }

  // A run that does it: one request, its only chunk, the end of the session, and then the result
  // that cannot be encoded.
  const EMPTY: Part := Part([], [], [])
  const QUERY: seq<Action> := [Bind(false, false, 0), Register("1", "n", false, false, 0, []), Sent(true), Chunk("1", "n", 0, 1, EMPTY, 0, [])]

  lemma QueryRuns()
    ensures Runs(QUERY) && After(QUERY).book.completing == [Result(0, "1", "n", EMPTY)] && After(QUERY).book.sending.None?
  {
    hide Runs, After, Next, Enabled, Registered;
    Begins();
    Extended([], QUERY[0]);
    assert [] + [QUERY[0]] == QUERY[..1];
    RequestRegisters(After(QUERY[..1]));
    Extended(QUERY[..1], QUERY[1]);
    assert QUERY[..1] + [QUERY[1]] == QUERY[..2];
    FrameIsWritten(After(QUERY[..2]));
    Extended(QUERY[..2], QUERY[2]);
    assert QUERY[..2] + [QUERY[2]] == QUERY[..3];
    ChunkCompletes(After(QUERY[..3]));
    Extended(QUERY[..3], QUERY[3]);
    assert QUERY[..3] + [QUERY[3]] == QUERY;
  }

  lemma Begins()
    ensures Runs([]) && Enabled(After([]), QUERY[0]) && Bound(Next(After([]), QUERY[0]))
  {}

  lemma Extended(run: seq<Action>, a: Action)
    requires Runs(run) && Enabled(After(run), a)
    ensures Runs(run + [a]) && After(run + [a]) == Next(After(run), a)
  {
    hide Next, Enabled;
    assert (run + [a])[..|run|] == run;
  }

  ghost predicate Bound(s: State) {
    && s.session.socket == Socket.Open && s.session.chunks == map[] && s.session.chunkBytes == 0 && s.session.outboundEvents == [0]
    && s.book.completing == [] && s.book.sending.None? && s.book.nextId == 0
  }

  ghost predicate Registered(s: State) {
    && s.session.chunks == map["n" := Request(0, "1", 0, map[], 0, 0)] && s.session.chunkBytes == 0 && s.book.completing == []
  }

  lemma RequestRegisters(s: State)
    requires Bound(s)
    ensures Enabled(s, QUERY[1]) && Registered(Next(s, QUERY[1])) && Enabled(Next(s, QUERY[1]), QUERY[2])
  {
    assert [0][..0] == [] && Within([], 0) == [];
    assert Within([0], 0) == [0];
    assert OverdueIn(s.session, 0) == {} && Expire(s.session, []) == s.session;
  }

  lemma FrameIsWritten(s: State)
    requires Registered(s) && Enabled(s, QUERY[2])
    ensures var t := Next(s, QUERY[2]); Registered(t) && t.book.sending.None? && Enabled(t, QUERY[3])
  {
    var t := Next(s, QUERY[2]);
    assert OverdueIn(t.session, 0) == {};
  }

  lemma ChunkCompletes(s: State)
    requires Registered(s) && s.book.sending.None? && Enabled(s, QUERY[3])
    ensures var t := Next(s, QUERY[3]); t.book.completing == [Result(0, "1", "n", EMPTY)] && t.book.sending.None?
  {
    hide Expire, PartBytes, Assemble, Remove;
    NoneExpire(s.session);
    OneEmptyPart();
    var parts: map<nat, Part> := map[0 := EMPTY];
    assert |parts| == 1;
  }

  lemma NoneExpire(s: Session)
    ensures Expire(s, []) == s
  {}

  lemma OneEmptyPart()
    ensures PartBytes(EMPTY) == 64 && Assemble(map[0 := EMPTY], 1) == EMPTY
  {
    assert TextBytes([]) == 0;
    var parts: map<nat, Part> := map[0 := EMPTY];
    assert Assemble(parts, 0) == EMPTY && Assemble(parts, 1) == EMPTY;
  }

  lemma ARunLosesARecord()
    ensures exists run :: Runs(run) && After(run).book.lost[0] == 1 && After(run).book.reported[0] == 0
  {
    hide Next, Runs, After;
    QueryRuns();
    RunKeepsInv(QUERY);
    var s := After(QUERY);
    Ending(s);
    LateRecordIsDropped(s, 0, EncodingFailed, false, false, 0);
    Extended(QUERY, Unbind);
    Extended(QUERY + [Unbind], Encoded(0, Some(EncodingFailed)));
    Extended(QUERY + [Unbind] + [Encoded(0, Some(EncodingFailed))], Bind(false, false, 0));
  }

  lemma Ending(s: State)
    requires s.book.completing == [Result(0, "1", "n", EMPTY)] && s.book.sending.None?
    ensures Enabled(s, Unbind)
    ensures var t := Next(s, Unbind); Enabled(t, Encoded(0, Some(EncodingFailed)))
    ensures var t := Next(Next(s, Unbind), Encoded(0, Some(EncodingFailed))); Enabled(t, Bind(false, false, 0))
  {}
}
