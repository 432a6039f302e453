// What every step of the gateway session keeps: the byte account, the limits, and one fate for
// every request.
module GatewaySafety {
  import opened Wrappers
  import opened GatewaySteps

  // ---- sums over the pending requests ------------------------------------------------------------

  ghost function SumBytes(m: map<string, Request>): nat {
    if m == map[] then 0
    else
      var k :| k in m;
      SumBytes(m - {k}) + m[k].bytes
  }

  ghost function SumParts(m: map<nat, Part>): nat {
    if m == map[] then 0
    else
      var k :| k in m;
      SumParts(m - {k}) + PartBytes(m[k])
  }

  lemma {:induction false} SumWithout(m: map<string, Request>, n: string)
    requires n in m
    ensures SumBytes(m) == SumBytes(m - {n}) + m[n].bytes
    ensures PendingIds(m) == PendingIds(m - {n}) + multiset{m[n].id}
    decreases |m|
  {
    SumUnfolds(m, n);
    IdsUnfold(m, n);
  }

  lemma {:induction false} SumUnfolds(m: map<string, Request>, n: string)
    requires n in m
    ensures SumBytes(m) == SumBytes(m - {n}) + m[n].bytes
    decreases |m|
  {
    var k :| k in m && SumBytes(m) == SumBytes(m - {k}) + m[k].bytes;
    if k != n {
      SumUnfolds(m - {k}, n);
      SumUnfolds(m - {n}, k);
      assert m - {k} - {n} == m - {n} - {k};
    }
  }

  lemma Pick(m: map<string, Request>) returns (k: string)
    requires m != map[]
    ensures k in m && PendingIds(m) == PendingIds(m - {k}) + multiset{m[k].id}
  {
    k :| k in m && PendingIds(m) == PendingIds(m - {k}) + multiset{m[k].id};
  }

  lemma Swap(rest: multiset<nat>, x: nat, y: nat)
    ensures rest + multiset{x} + multiset{y} == rest + multiset{y} + multiset{x}
  {}

  lemma {:induction false} IdsUnfold(m: map<string, Request>, n: string)
    requires n in m
    ensures PendingIds(m) == PendingIds(m - {n}) + multiset{m[n].id}
    decreases |m|
  {
    hide PendingIds;
    var k := Pick(m);
    if k != n {
      IdsUnfold(m - {k}, n);
      IdsUnfold(m - {n}, k);
      assert m - {k} - {n} == m - {n} - {k};
      Swap(PendingIds(m - {k} - {n}), m[n].id, m[k].id);
    }
  }

  lemma {:induction false} PartsUnfold(m: map<nat, Part>, n: nat)
    requires n in m
    ensures SumParts(m) == SumParts(m - {n}) + PartBytes(m[n])
    decreases |m|
  {
    var k :| k in m && SumParts(m) == SumParts(m - {k}) + PartBytes(m[k]);
    if k != n {
      PartsUnfold(m - {k}, n);
      PartsUnfold(m - {n}, k);
      assert m - {k} - {n} == m - {n} - {k};
    }
  }

  lemma OneMorePart(m: map<nat, Part>, i: nat, p: Part)
    requires i !in m
    ensures SumParts(m[i := p]) == SumParts(m) + PartBytes(p)
  {
    PartsUnfold(m[i := p], i);
    assert m[i := p] - {i} == m;
  }

  lemma OneMoreRequest(m: map<string, Request>, n: string, r: Request)
    requires n !in m
    ensures SumBytes(m[n := r]) == SumBytes(m) + r.bytes && PendingIds(m[n := r]) == PendingIds(m) + multiset{r.id}
    ensures |m[n := r]| == |m| + 1
  {
    SumWithout(m[n := r], n);
    assert m[n := r] - {n} == m;
  }

  lemma ReplacedRequest(m: map<string, Request>, n: string, r: Request)
    requires n in m
    ensures SumBytes(m[n := r]) == SumBytes(m) - m[n].bytes + r.bytes && |m[n := r]| == |m|
    ensures r.id == m[n].id ==> PendingIds(m[n := r]) == PendingIds(m)
  {
    SumWithout(m, n);
    SumWithout(m[n := r], n);
    assert m[n := r] - {n} == m - {n};
    assert m[n := r].Keys == m.Keys;
  }

  // ---- the text that is held ------------------------------------------------------------------------

  function Joined(rs: seq<Raw>): string { if rs == [] then "" else rs[0] + Joined(rs[1..]) }

  // What a part brought, one value behind the other.
  function TextOf(p: Part): string { Joined(p.members) + Joined(p.notFound) + Joined(p.presences) }

  lemma {:induction false} TextBytesCount(rs: seq<Raw>)
    ensures TextBytes(rs) == |Joined(rs)|
  {
    if rs != [] {
      var k := |rs| - 1;
      TextBytesCount(rs[..k]);
      JoinedSnoc(rs[..k], rs[k]);
      assert rs == rs[..k] + [rs[k]];
    }
  }

  lemma {:induction false} JoinedSnoc(rs: seq<Raw>, r: Raw)
    ensures Joined(rs + [r]) == Joined(rs) + r
  {
    if rs == [] {
      assert [r][1..] == [] && [] + [r] == [r];
    } else {
      assert (rs + [r])[1..] == rs[1..] + [r];
      JoinedSnoc(rs[1..], r);
    }
  }

  // A part counts for its text and 64 bytes more.
  lemma PartBytesCount(p: Part)
    ensures PartBytes(p) == |TextOf(p)| + 64
  {
    TextBytesCount(p.members);
    TextBytesCount(p.notFound);
    TextBytesCount(p.presences);
  }

  ghost function TextIn(m: map<nat, Part>): nat {
    if m == map[] then 0
    else
      var k :| k in m;
      TextIn(m - {k}) + |TextOf(m[k])|
  }

  // All text that pending requests hold, and how many parts it came in.
  ghost function TextHeld(m: map<string, Request>): nat {
    if m == map[] then 0
    else
      var k :| k in m;
      TextHeld(m - {k}) + TextIn(m[k].chunks)
  }

  ghost function PartsHeld(m: map<string, Request>): nat {
    if m == map[] then 0
    else
      var k :| k in m;
      PartsHeld(m - {k}) + |m[k].chunks|
  }

  lemma {:induction false} TextInUnfolds(m: map<nat, Part>, n: nat)
    requires n in m
    ensures TextIn(m) == TextIn(m - {n}) + |TextOf(m[n])|
    decreases |m|
  {
    var k :| k in m && TextIn(m) == TextIn(m - {k}) + |TextOf(m[k])|;
    if k != n {
      TextInUnfolds(m - {k}, n);
      TextInUnfolds(m - {n}, k);
      assert m - {k} - {n} == m - {n} - {k};
    }
  }

  lemma {:induction false} SumPartsCount(m: map<nat, Part>)
    ensures SumParts(m) == TextIn(m) + 64 * |m|
    decreases |m|
  {
    if m != map[] {
      var k :| k in m;
      PartsUnfold(m, k);
      TextInUnfolds(m, k);
      PartBytesCount(m[k]);
      SumPartsCount(m - {k});
      assert |m| == |m - {k}| + 1;
    }
  }

  lemma {:induction false} HeldUnfolds(m: map<string, Request>, n: string)
    requires n in m
    ensures TextHeld(m) == TextHeld(m - {n}) + TextIn(m[n].chunks)
    decreases |m|
  {
    var k :| k in m && TextHeld(m) == TextHeld(m - {k}) + TextIn(m[k].chunks);
    if k != n {
      HeldUnfolds(m - {k}, n);
      HeldUnfolds(m - {n}, k);
      assert m - {k} - {n} == m - {n} - {k};
    }
  }

  lemma {:induction false} PartsHeldUnfolds(m: map<string, Request>, n: string)
    requires n in m
    ensures PartsHeld(m) == PartsHeld(m - {n}) + |m[n].chunks|
    decreases |m|
  {
    var k :| k in m && PartsHeld(m) == PartsHeld(m - {k}) + |m[k].chunks|;
    if k != n {
      PartsHeldUnfolds(m - {k}, n);
      PartsHeldUnfolds(m - {n}, k);
      assert m - {k} - {n} == m - {n} - {k};
    }
  }

  lemma {:induction false} SumBytesCount(m: map<string, Request>)
    requires forall n :: n in m ==> m[n].bytes == SumParts(m[n].chunks)
    ensures SumBytes(m) == TextHeld(m) + 64 * PartsHeld(m)
    decreases |m|
  {
    if m != map[] {
      var k :| k in m;
      SumWithout(m, k);
      HeldUnfolds(m, k);
      PartsHeldUnfolds(m, k);
      SumPartsCount(m[k].chunks);
      SumBytesCount(m - {k});
    }
  }

  // ---- the invariant ------------------------------------------------------------------------------

  // A pending request counts the bytes of its parts, has only parts below its chunk count, and is
  // not complete.
  ghost predicate RequestOk(r: Request) {
    && r.bytes == SumParts(r.chunks)
    && (forall i :: i in r.chunks ==> i < r.chunkCount)
    && (r.chunkCount > 0 ==> 0 < |r.chunks| < r.chunkCount)
    && r.chunkCount <= MAX_CHUNKS
  }

  ghost predicate Accounted(s: Session) {
    && s.chunkBytes == SumBytes(s.chunks) && s.chunkBytes <= AGGREGATE_LIMIT
    && |s.chunks| <= PENDING_LIMIT
    && forall n :: n in s.chunks ==> RequestOk(s.chunks[n])
  }

  // The requests the session still has to answer for.
  ghost function Outstanding(s: Session): multiset<nat> { PendingIds(s.chunks) + FailureIds(s.failures) }

  // The fates of all requests so far: pending, completed, failed but not taken, reported, never
  // sent, or dropped by the next session.
  ghost function Fates(s: State): multiset<nat> {
    Outstanding(s.session) + CompletingIds(s.book.completing) + s.book.reported + s.book.unsent + s.book.lost
  }

  function Upto(n: nat): multiset<nat> { if n == 0 then multiset{} else Upto(n - 1) + multiset{n - 1} }

  lemma {:induction false} UptoCounts(n: nat, i: nat)
    ensures Upto(n)[i] == if i < n then 1 else 0
  {
    if n > 0 { UptoCounts(n - 1, i); }
  }

  ghost predicate Inv(s: State) {
    Accounted(s.session) && Fates(s) == Upto(s.book.nextId)
  }

  // ---- removals -----------------------------------------------------------------------------------

  // Under the invariant the byte count never has to be clamped.
  lemma RemoveAccounts(s: Session, nonce: string)
    requires Accounted(s) && nonce in s.chunks
    ensures Accounted(Remove(s, nonce)) && Remove(s, nonce).chunkBytes == s.chunkBytes - s.chunks[nonce].bytes
    ensures PendingIds(s.chunks) == PendingIds(Remove(s, nonce).chunks) + multiset{s.chunks[nonce].id}
  {
    SumWithout(s.chunks, nonce);
  }

  lemma FailAccounts(s: Session, nonce: string, reason: Reason)
    requires Accounted(s) && nonce in s.chunks
    ensures Accounted(Fail(s, nonce, reason)) && Outstanding(Fail(s, nonce, reason)) == Outstanding(s)
  {
    var r := s.chunks[nonce];
    var queued := s.(failures := s.failures + [Failure(r.id, r.guild, nonce, reason)]);
    RemoveAccounts(queued, nonce);
    assert queued.failures[..|queued.failures| - 1] == s.failures;
  }

  lemma {:induction false} ExpireAccounts(s: Session, order: seq<string>)
    requires Accounted(s)
    ensures Accounted(Expire(s, order)) && Outstanding(Expire(s, order)) == Outstanding(s)
    ensures Expire(s, order).(chunks := s.chunks, chunkBytes := s.chunkBytes, failures := s.failures) == s
  {
    if order != [] {
      var before := FailAll(s, order[..|order| - 1], Timeout);
      ExpireAccounts(s, order[..|order| - 1]);
      if order[|order| - 1] in before.chunks { FailAccounts(before, order[|order| - 1], Timeout); }
    }
  }

  // ---- every step ---------------------------------------------------------------------------------

  lemma RegisterKeeps(s: State, guild: string, nonce: string, all: bool, presences: bool, now: int, order: seq<string>)
    requires Inv(s)
    ensures Inv(RegisterStep(s, guild, nonce, all, presences, now, order).0)
  {
    hide Within, Recent, Fates, Accounted, Expire, PendingIds, FailureIds;
    ExpireAccounts(s.session, order);
    var e := Expire(s.session, order);
    ElsewhereKeeps(s, e);
    var r := Request(s.book.nextId, guild, 0, map[], 0, now);
    var full := if all then Recent(e.fullListAt, now)[guild := now] else Recent(e.fullListAt, now);
    var f := e.(fullListAt := Recent(e.fullListAt, now));
    SameAccount(s.(session := e), f);
    SameAccount(s.(session := e), f.(outboundEvents := Within(f.outboundEvents, now)));
    if nonce !in e.chunks && |e.chunks| < PENDING_LIMIT {
      AcceptKeeps(s.(session := e), nonce, r, Within(f.outboundEvents, now) + [now], full);
    }
  }

  // Answering for the same requests keeps the fates.
  lemma ElsewhereKeeps(s: State, e: Session)
    requires Inv(s) && Accounted(e) && Outstanding(e) == Outstanding(s.session)
    ensures Inv(s.(session := e))
  {}

  lemma SameAccount(s: State, f: Session)
    requires Inv(s) && f.chunks == s.session.chunks && f.chunkBytes == s.session.chunkBytes && f.failures == s.session.failures
    ensures Inv(s.(session := f))
  {}

  lemma AcceptKeeps(s: State, nonce: string, r: Request, events: seq<int>, full: map<string, int>)
    requires Inv(s) && nonce !in s.session.chunks && |s.session.chunks| < PENDING_LIMIT
    requires r.id == s.book.nextId && r.chunkCount == 0 && r.chunks == map[] && r.bytes == 0
    ensures Inv(State(s.session.(chunks := s.session.chunks[nonce := r], outboundEvents := events, fullListAt := full),
      s.book.(nextId := s.book.nextId + 1, sending := Some((nonce, r.id)))))
  {
    hide PendingIds, SumBytes, FailureIds, CompletingIds;
    OneMoreRequest(s.session.chunks, nonce, r);
    EmptyRequest(r);
    OneMoreFate(PendingIds(s.session.chunks), FailureIds(s.session.failures), CompletingIds(s.book.completing) , s.book.reported, s.book.unsent, s.book.lost, r.id);
  }

  lemma EmptyRequest(r: Request)
    requires r.chunkCount == 0 && r.chunks == map[] && r.bytes == 0
    ensures RequestOk(r)
  {}

  lemma OneMoreFate(p: multiset<nat>, f: multiset<nat>, c: multiset<nat>, r: multiset<nat>, u: multiset<nat>, l: multiset<nat>, x: nat)
    ensures (p + multiset{x}) + f + c + r + u + l == p + f + c + r + u + l + multiset{x}
  {}


  lemma SentKeeps(s: State, ok: bool)
    requires Inv(s) && s.book.sending.Some?
    ensures Inv(SentStep(s, ok))
  {
    hide CompletingIds, PendingIds, FailureIds, SumBytes, Accounted, Remove;
    var (nonce, id) := s.book.sending.value;
    var b := s.book;
    RemoveOnly(s.session, nonce);
    if nonce in s.session.chunks {
      RemoveAccounts(s.session, nonce);
      FatesMove(PendingIds(Remove(s.session, nonce).chunks), FailureIds(s.session.failures), CompletingIds(b.completing), b.reported, b.unsent, b.lost, s.session.chunks[nonce].id);
    }
  }

  lemma RemoveOnly(s: Session, nonce: string)
    ensures Remove(s, nonce).failures == s.failures
  {}

  lemma ChunkKeeps(s: State, guild: string, nonce: string, index: nat, count: nat, part: Part, order: seq<string>)
    requires Inv(s) && index < count <= MAX_CHUNKS
    ensures Inv(ChunkStep(s, guild, nonce, index, count, part, order).0)
  {
    hide Assemble, PartBytes, Expire, Fates, Accounted, Outstanding, Fail, Remove;
    ExpireAccounts(s.session, order);
    var e := Expire(s.session, order);
    ElsewhereKeeps(s, e);
    if nonce in e.chunks {
      var r := e.chunks[nonce];
      FailAccounts(e, nonce, MetadataMismatch);
      FailAccounts(e, nonce, AggregateExceeded);
      ElsewhereKeeps(s.(session := e), Fail(e, nonce, MetadataMismatch));
      ElsewhereKeeps(s.(session := e), Fail(e, nonce, AggregateExceeded));
      if index !in r.chunks && r.guild == guild && (r.chunkCount == 0 || r.chunkCount == count) {
        if e.chunkBytes + PartBytes(part) <= AGGREGATE_LIMIT { StoredKeeps(s.(session := e), nonce, index, count, part); }
      }
    }
  }

  function Stored(r: Request, index: nat, count: nat, part: Part): Request {
    Request(r.id, r.guild, count, r.chunks[index := part], r.bytes + PartBytes(part), r.createdAt)
  }

  function Storing(s: Session, nonce: string, q: Request, bytes: nat): Session {
    s.(chunks := s.chunks[nonce := q], chunkBytes := s.chunkBytes + bytes)
  }

  lemma StoredRequest(r: Request, index: nat, count: nat, part: Part)
    requires RequestOk(r) && index < count <= MAX_CHUNKS && index !in r.chunks && (r.chunkCount == 0 || r.chunkCount == count)
    ensures var q := Stored(r, index, count, part);
      && |q.chunks| <= count && q.bytes == SumParts(q.chunks)
      && (|q.chunks| != count ==> RequestOk(q))
      && (|q.chunks| == count ==> forall i :: 0 <= i < count ==> i in q.chunks)
  {
    hide PartBytes;
    OneMorePart(r.chunks, index, part);
    var q := Stored(r, index, count, part);
    assert q.chunks.Keys == r.chunks.Keys + {index};
    AllPresent(q.chunks.Keys, count);
  }

  // A stored part: the request stays pending, or is complete and leaves.
  lemma StoredKeeps(s: State, nonce: string, index: nat, count: nat, part: Part)
    requires Inv(s) && nonce in s.session.chunks && index < count <= MAX_CHUNKS
    requires index !in s.session.chunks[nonce].chunks && (s.session.chunks[nonce].chunkCount == 0 || s.session.chunks[nonce].chunkCount == count)
    requires s.session.chunkBytes + PartBytes(part) <= AGGREGATE_LIMIT
    ensures var q := Stored(s.session.chunks[nonce], index, count, part);
      var g := Storing(s.session, nonce, q, PartBytes(part));
      && (|q.chunks| != count ==> Inv(s.(session := g)))
      && (|q.chunks| == count ==> forall i :: 0 <= i < count ==> i in q.chunks)
      && forall result: Result :: result.id == q.id ==> Inv(State(Remove(g, nonce), s.book.(completing := s.book.completing + [result])))
  {
    hide PartBytes, RequestOk, Stored, SumParts, PendingIds, SumBytes, FailureIds, CompletingIds;
    var r := s.session.chunks[nonce];
    StoredRequest(r, index, count, part);
    var q := Stored(r, index, count, part);
    StoredFields(r, index, count, part);
    var g := Storing(s.session, nonce, q, PartBytes(part));
    ReplacedRequest(s.session.chunks, nonce, q);
    SumWithout(g.chunks, nonce);
    forall result: Result | result.id == q.id
      ensures Inv(State(Remove(g, nonce), s.book.(completing := s.book.completing + [result])))
    {
      CompletedFate(s.book.completing, result);
      assert Remove(g, nonce).chunkBytes == SumBytes(Remove(g, nonce).chunks);
      MovedFate(PendingIds(Remove(g, nonce).chunks), FailureIds(g.failures), CompletingIds(s.book.completing), s.book.reported, s.book.unsent, s.book.lost, q.id);
    }
  }

  lemma CompletedFate(rs: seq<Result>, r: Result)
    ensures CompletingIds(rs + [r]) == CompletingIds(rs) + multiset{r.id}
  {
    assert (rs + [r])[..|rs|] == rs;
  }

  lemma MovedFate(p: multiset<nat>, f: multiset<nat>, c: multiset<nat>, r: multiset<nat>, u: multiset<nat>, l: multiset<nat>, x: nat)
    ensures (p + multiset{x}) + f + c + r + u + l == p + f + (c + multiset{x}) + r + u + l
  {}

  lemma StoredFields(r: Request, index: nat, count: nat, part: Part)
    ensures Stored(r, index, count, part).id == r.id && Stored(r, index, count, part).bytes == r.bytes + PartBytes(part)
  {}

  // As many indexes below the count as the count are all of them: the branch for a missing index
  // is never taken.
  lemma {:induction false} AllPresent(keys: set<nat>, count: nat)
    requires forall i :: i in keys ==> i < count
    ensures |keys| <= count && (|keys| == count ==> forall i :: 0 <= i < count ==> i in keys)
  {
    if count > 0 {
      var rest := keys - {count - 1};
      AllPresent(rest, count - 1);
      if count - 1 in keys { assert |keys| == |rest| + 1; } else { assert keys == rest; }
    }
  }

  lemma {:induction false} CompletingWithout(rs: seq<Result>, k: nat)
    requires k < |rs|
    ensures CompletingIds(rs) == CompletingIds(rs[..k] + rs[k + 1..]) + multiset{rs[k].id}
  {
    hide CompletingIds;
    var n := |rs| - 1;
    var rest := rs[..k] + rs[k + 1..];
    assert rs == rs[..n] + [rs[n]];
    CompletedFate(rs[..n], rs[n]);
    if k < n {
      CompletingWithout(rs[..n], k);
      var inner := rs[..n][..k] + rs[..n][k + 1..];
      assert rest == inner + [rs[n]];
      CompletedFate(inner, rs[n]);
      Swap(CompletingIds(inner), rs[k].id, rs[n].id);
    } else {
      assert rest == rs[..n];
    }
  }

  lemma EncodedKeeps(s: State, k: nat, failure: Option<Reason>)
    requires Inv(s) && k < |s.book.completing|
    ensures Inv(EncodedStep(s, k, failure))
  {
    hide CompletingIds, PendingIds, FailureIds, SumBytes;
    var b, r := s.book, s.book.completing[k];
    var rest := b.completing[..k] + b.completing[k + 1..];
    var p, f, c := PendingIds(s.session.chunks), FailureIds(s.session.failures), CompletingIds(rest);
    CompletingWithout(b.completing, k);
    FatesMove(p, f, c, b.reported, b.unsent, b.lost, r.id);
    if failure.Some? { QueuedFate(s.session.failures, Failure(r.id, r.guild, r.nonce, failure.value)); }
  }

  lemma QueuedFate(fs: seq<Failure>, f: Failure)
    ensures FailureIds(fs + [f]) == FailureIds(fs) + multiset{f.id}
  {
    assert (fs + [f])[..|fs|] == fs;
  }

  // One request moves from one fate to another.
  lemma FatesMove(p: multiset<nat>, f: multiset<nat>, c: multiset<nat>, r: multiset<nat>, u: multiset<nat>, l: multiset<nat>, x: nat)
    ensures p + f + (c + multiset{x}) + r + u + l == p + f + c + (r + multiset{x}) + u + l
    ensures p + f + (c + multiset{x}) + r + u + l == p + (f + multiset{x}) + c + r + u + l
    ensures (p + multiset{x}) + f + c + r + u + l == p + f + c + r + (u + multiset{x}) + l
  {}

  lemma StepKeepsInv(s: State, a: Action)
    requires Inv(s) && Enabled(s, a)
    ensures Inv(Next(s, a))
  {
    hide Within, Recent, BindStep, UnbindStep, RegisterStep, SentStep, ChunkStep, EncodedStep, RateLimitStep, TakeStep, Inv, Accounted, Fates;
    match a
    case Bind(m, p, now) => BindKeeps(s, m, p, now);
    case Unbind => UnbindKeeps(s);
    case Send(now) => SameAccount(s, SendStep(s, now).0.session);
    case Register(g, n, all, p, now, order) => RegisterKeeps(s, g, n, all, p, now, order);
    case Sent(ok) => SentKeeps(s, ok);
    case Chunk(g, n, i, c, part, _, order) => ChunkKeeps(s, g, n, i, c, part, order);
    case Encoded(k, f) => EncodedKeeps(s, k, f);
    case RateLimit(g, n, retry, _, order) => RateLimitKeeps(s, g, n, retry, order);
    case Take(_, order) => TakeKeeps(s, order);
    case Close => SameAccount(s, Next(s, a).session);
  }

  lemma NothingPending()
    ensures PendingIds(map[]) == multiset{} && SumBytes(map[]) == 0 && FailureIds([]) == multiset{}
  {}

  lemma BindKeeps(s: State, members: bool, presences: bool, now: int)
    requires Inv(s)
    ensures Inv(BindStep(s, members, presences, now).0)
  {
    hide PendingIds, FailureIds, CompletingIds, SumBytes;
    NothingPending();
    Regroup(PendingIds(s.session.chunks), FailureIds(s.session.failures), CompletingIds(s.book.completing), s.book.reported, s.book.unsent, s.book.lost);
  }

  lemma UnbindKeeps(s: State)
    requires Inv(s)
    ensures Inv(UnbindStep(s))
  {
    hide PendingIds, FailureIds, CompletingIds, SumBytes;
    NothingPending();
    Regroup(PendingIds(s.session.chunks), FailureIds(s.session.failures), CompletingIds(s.book.completing), s.book.reported, s.book.unsent, s.book.lost);
  }

  lemma Regroup(p: multiset<nat>, f: multiset<nat>, c: multiset<nat>, r: multiset<nat>, u: multiset<nat>, l: multiset<nat>)
    ensures p + f + c + r + u + l == multiset{} + multiset{} + c + r + u + (l + p + f)
    ensures p + f + c + r + u + l == multiset{} + multiset{} + c + (r + f + p) + u + l
  {}

  lemma RateLimitKeeps(s: State, guild: string, nonce: string, retryAfter: real, order: seq<string>)
    requires Inv(s)
    ensures Inv(RateLimitStep(s, guild, nonce, retryAfter, order))
  {
    hide Fates, Accounted, Expire, Outstanding, Fail;
    ExpireAccounts(s.session, order);
    var e := Expire(s.session, order);
    ElsewhereKeeps(s, e);
    if nonce in e.chunks {
      FailAccounts(e, nonce, RateLimited(retryAfter));
      ElsewhereKeeps(s.(session := e), Fail(e, nonce, RateLimited(retryAfter)));
    }
  }

  lemma TakeKeeps(s: State, order: seq<string>)
    requires Inv(s)
    ensures Inv(TakeStep(s, order).0)
  {
    hide Expire, CompletingIds, PendingIds, FailureIds, SumBytes, Upto;
    ExpireAccounts(s.session, order);
    var e := Expire(s.session, order);
    ElsewhereKeeps(s, e);
    NothingPending();
    TakenFate(PendingIds(e.chunks), FailureIds(e.failures), CompletingIds(s.book.completing), s.book.reported, s.book.unsent, s.book.lost);
  }

  lemma TakenFate(p: multiset<nat>, f: multiset<nat>, c: multiset<nat>, r: multiset<nat>, u: multiset<nat>, l: multiset<nat>)
    ensures p + f + c + r + u + l == p + multiset{} + c + (r + f) + u + l
  {}

  // ---- runs ---------------------------------------------------------------------------------------

  // A run: the steps taken from the start, each enabled where it is taken.
  ghost predicate Runs(run: seq<Action>)
    decreases |run|, 0
  {
    run != [] ==> Runs(run[..|run| - 1]) && Enabled(After(run[..|run| - 1]), run[|run| - 1])
  }

  ghost function After(run: seq<Action>): State
    requires Runs(run)
    decreases |run|, 1
  {
    if run == [] then Start() else Next(After(run[..|run| - 1]), run[|run| - 1])
  }

  lemma {:induction false} RunKeepsInv(run: seq<Action>)
    requires Runs(run)
    ensures Inv(After(run))
    decreases |run|
  {
    if run != [] {
      RunKeepsInv(run[..|run| - 1]);
      StepKeepsInv(After(run[..|run| - 1]), run[|run| - 1]);
    }
  }

  // In every run the byte count is the text held by all pending requests and 64 for each of its
  // parts, and at most 32 MiB; at most 64 requests are pending, and every request handed an id has
  // exactly one fate.
  lemma EveryRunAccounts(run: seq<Action>, id: nat)
    requires Runs(run)
    ensures var s := After(run);
      && s.session.chunkBytes == SumBytes(s.session.chunks) == TextHeld(s.session.chunks) + 64 * PartsHeld(s.session.chunks)
      && TextHeld(s.session.chunks) + 64 * PartsHeld(s.session.chunks) <= 32 * 1024 * 1024 && |s.session.chunks| <= 64
      && Fates(s)[id] == if id < s.book.nextId then 1 else 0
  {
    hide After, Runs, TextHeld, PartsHeld, SumBytes, Fates;
    RunKeepsInv(run);
    AccountedOk(After(run).session);
    SumBytesCount(After(run).session.chunks);
    UptoCounts(After(run).book.nextId, id);
  }

  lemma AccountedOk(s: Session)
    requires Accounted(s)
    ensures s.chunkBytes == SumBytes(s.chunks)
    ensures forall n :: n in s.chunks ==> s.chunks[n].bytes == SumParts(s.chunks[n].chunks)
  {}

  lemma {:induction false} OneOfTheSum(m: map<string, Request>, n: string)
    requires n in m
    ensures m[n].bytes <= SumBytes(m)
  {
    SumWithout(m, n);
  }

  // A chunk that matches its request and is new to it is refused for its size exactly when the text
  // held, with its own, would pass 32 MiB.
  lemma TooLargeExactly(run: seq<Action>, a: Action)
    requires Runs(run) && Enabled(After(run), a) && a.Chunk?
    requires var e := Expire(After(run).session, a.order);
      a.nonce in e.chunks && var r := e.chunks[a.nonce]; r.guild == a.guild && (r.chunkCount == 0 || r.chunkCount == a.count) && a.index !in r.chunks
    ensures var e := Expire(After(run).session, a.order);
      ChunkStep(After(run), a.guild, a.nonce, a.index, a.count, a.part, a.order).1 == TooLarge <==>
      TextHeld(e.chunks) + 64 * PartsHeld(e.chunks) + |TextOf(a.part)| + 64 > 32 * 1024 * 1024
  {
    var e := Expire(After(run).session, a.order);
    ExpiredAccounts(run, a);
    hide *;
    AccountedOk(e);
    SumBytesCount(e.chunks);
    OneOfTheSum(e.chunks, a.nonce);
    PartBytesCount(a.part);
    RefusedForSize(After(run), a);
  }

  lemma ExpiredAccounts(run: seq<Action>, a: Action)
    requires Runs(run) && Enabled(After(run), a) && a.Chunk?
    ensures Accounted(Expire(After(run).session, a.order))
  {
    hide After, Runs, Accounted, Expire, Fates, Within;
    RunKeepsInv(run);
    ExpireAccounts(After(run).session, a.order);
  }

  // The branch of the two limits, of which the account needs one.
  lemma RefusedForSize(s: State, a: Action)
    requires a.Chunk? && a.index < a.count <= MAX_CHUNKS
    requires var e := Expire(s.session, a.order);
      a.nonce in e.chunks && e.chunks[a.nonce].bytes <= e.chunkBytes
      && var r := e.chunks[a.nonce]; r.guild == a.guild && (r.chunkCount == 0 || r.chunkCount == a.count) && a.index !in r.chunks
    ensures var e := Expire(s.session, a.order);
      ChunkStep(s, a.guild, a.nonce, a.index, a.count, a.part, a.order).1 == TooLarge <==> e.chunkBytes + PartBytes(a.part) > AGGREGATE_LIMIT
  {
    hide Expire, PartBytes, Assemble, Remove, Fail;
  }

  // Only a new session drops requests, and only those still queued or pending when it starts.
  lemma OnlyBindDrops(s: State, a: Action)
    requires Enabled(s, a)
    ensures Next(s, a).book.lost == s.book.lost + if a.Bind? && s.session.socket != Socket.Open then Outstanding(s.session) else multiset{}
  {
    hide Within, Recent, Assemble, Expire;
  }

  // Once a session has ended with no result being encoded, every request has been reported exactly
  // once, was never sent, or was dropped by an earlier session's start; starting a session now
  // drops none.
  lemma EndedSessionHasReported(s: State, id: nat)
    requires Inv(s) && s.book.sending.None? && s.book.completing == [] && id < s.book.nextId
    ensures var t := Next(s, Unbind);
      && t.book.reported[id] + t.book.unsent[id] + t.book.lost[id] == 1 && t.book.lost == s.book.lost
      && forall m, p, now :: Next(t, Bind(m, p, now)).book.lost == t.book.lost
  {
    hide PendingIds, FailureIds, SumBytes, Upto, Accounted;
    StepKeepsInv(s, Unbind);
    var t := Next(s, Unbind);
    UptoCounts(t.book.nextId, id);
    NothingPending();
    assert Fates(t) == multiset{} + multiset{} + CompletingIds([]) + t.book.reported + t.book.unsent + t.book.lost;
    assert Fates(t)[id] == t.book.reported[id] + t.book.unsent[id] + t.book.lost[id];
  }
}
