// The Discord gateway session object; each method is one critical section.
module Gateway {
  import opened Wrappers
  import opened GatewaySteps
  import opened GatewaySafety

  class DiscordGatewayState {
    var socket: Socket
    var guildMembers: bool
    var guildPresences: bool
    var chunks: map<string, Request>
    var chunkBytes: int
    var fullListAt: map<string, int>
    var outboundEvents: seq<int>
    var failures: seq<Failure>
    ghost var book: Book
    var nextId: nat

    constructor ()
      ensures Now() == Start() && Valid()
    {
      socket, guildMembers, guildPresences := Absent, false, false;
      chunks, chunkBytes, fullListAt, outboundEvents, failures := map[], 0, map[], [], [];
      book, nextId := Start().book, 0;
      new;
      StartIsSound();
    }

    ghost function Guarded(): Session
      reads this
    {
      Session(socket, guildMembers, guildPresences, chunks, chunkBytes, fullListAt, outboundEvents, failures)
    }

    ghost function Now(): State
      reads this
    {
      State(Guarded(), book)
    }

    ghost predicate Valid()
      reads this
    {
      Inv(Now()) && nextId == book.nextId
    }

    method RemoveRequest(nonce: string)
      modifies this`chunks, this`chunkBytes
      ensures Guarded() == Remove(old(Guarded()), nonce)
    {
      if nonce in chunks {
        chunkBytes := chunkBytes - chunks[nonce].bytes;
        if chunkBytes < 0 { chunkBytes := 0; }
        chunks := chunks - {nonce};
      }
    }

    method FailRequest(nonce: string, reason: Reason)
      requires nonce in chunks
      modifies this`chunks, this`chunkBytes, this`failures
      ensures Guarded() == Fail(old(Guarded()), nonce, reason)
    {
      var r := chunks[nonce];
      failures := failures + [Failure(r.id, r.guild, nonce, reason)];
      RemoveRequest(nonce);
    }

    // Requests older than ten minutes fail, in the order the map is walked in.
    method ExpireRequests(now: int) returns (ghost order: seq<string>)
      modifies this`chunks, this`chunkBytes, this`failures
      ensures Enumerates(order, OverdueIn(old(Guarded()), now)) && Guarded() == Expire(old(Guarded()), order)
    {
      order := [];
      var names := chunks.Keys;
      while names != {}
        invariant names <= chunks.Keys && names <= old(chunks.Keys)
        invariant forall n :: n in names ==> chunks[n] == old(chunks)[n] && n !in order
        invariant Enumerates(order, OverdueIn(old(Guarded()), now) - names)
        invariant Guarded() == Expire(old(Guarded()), order)
        decreases |names|
      {
        hide Remove;
        var n :| n in names;
        names := names - {n};
        if now - chunks[n].createdAt > CHUNK_REQUEST_TTL {
          ghost var before := Guarded();
          FailRequest(n, Timeout);
          FailedOnly(before, n);
          assert (order + [n])[..|order|] == order;
          order := order + [n];
        }
      }
    }

    lemma FailedOnly(s: Session, n: string)
      requires n in s.chunks
      ensures Fail(s, n, Timeout).chunks == s.chunks - {n}
    {}

    method PurgeEvents(now: int)
      modifies this`outboundEvents
      ensures outboundEvents == Within(old(outboundEvents), now)
    {
      var active: seq<int> := [];
      assert outboundEvents[..0] == [];
      for i := 0 to |outboundEvents|
        invariant outboundEvents == old(outboundEvents) && active == Within(outboundEvents[..i], now)
      {
        assert outboundEvents[..i + 1][..i] == outboundEvents[..i];
        if now - outboundEvents[i] < EVENT_WINDOW { active := active + [outboundEvents[i]]; }
      }
      assert outboundEvents[..|outboundEvents|] == outboundEvents;
      outboundEvents := active;
    }

    method BindSession(members: bool, presences: bool, now: int) returns (answer: Answer)
      requires Valid() && book.sending.None?
      modifies this
      ensures (Now(), answer) == BindStep(old(Now()), members, presences, now)
      ensures Valid()
    {
      hide Inv;
      BindKeeps(Now(), members, presences, now);
      if socket == Socket.Open { return Refused(Active); }
      book := book.(lost := book.lost + PendingIds(chunks) + FailureIds(failures));
      socket, guildMembers, guildPresences := Socket.Open, members, presences;
      chunks, chunkBytes, outboundEvents, failures := map[], 0, [now], [];
      answer := Accepted;
    }

    method Send(now: int) returns (answer: Answer)
      requires Valid() && book.sending.None?
      modifies this`outboundEvents
      ensures (Now(), answer) == SendStep(old(Now()), now)
      ensures Valid()
    {
      StepKeepsInv(Now(), Action.Send(now));
      if socket != Socket.Open { return Refused(NoSession); }
      PurgeEvents(now);
      if |outboundEvents| >= EVENT_LIMIT { return Refused(EventLimit); }
      outboundEvents := outboundEvents + [now];
      answer := Accepted;
    }

    method UnbindSession() returns (records: seq<Failure>)
      requires Valid() && book.sending.None?
      modifies this
      ensures Now() == UnbindStep(old(Now())) && Valid()
      ensures exists order :: Enumerates(order, old(chunks.Keys)) && records == old(failures) + EndRecords(old(chunks), order)
      ensures FailureIds(records) == old(FailureIds(failures) + PendingIds(chunks))
    {
      hide Inv, PendingIds, FailureIds, EndRecords, Enumerates;
      UnbindKeeps(Now());
      ghost var order;
      records, order := RecordsAtEnd();
      RecordIds(failures, chunks, order);
      book := book.(reported := book.reported + FailureIds(failures) + PendingIds(chunks));
      socket, guildMembers, guildPresences := Absent, false, false;
      chunks, chunkBytes, outboundEvents, failures := map[], 0, [], [];
    }

    method RecordsAtEnd() returns (records: seq<Failure>, ghost order: seq<string>)
      ensures Enumerates(order, chunks.Keys) && records == failures + EndRecords(chunks, order)
    {
      records := failures;
      order := [];
      var names := chunks.Keys;
      while names != {}
        invariant names <= chunks.Keys
        invariant Enumerates(order, chunks.Keys - names)
        invariant records == failures + EndRecords(chunks, order)
        decreases |names|
      {
        var n :| n in names;
        names := names - {n};
        assert (order + [n])[..|order|] == order;
        records := records + [Failure(chunks[n].id, chunks[n].guild, n, SessionEnded)];
        order := order + [n];
      }
    }

    method PurgeFullLists(now: int)
      modifies this`fullListAt
      ensures fullListAt == Recent(old(fullListAt), now)
      ensures forall g :: g in fullListAt ==> now - fullListAt[g] < FULL_LIST_INTERVAL
    {
      var guilds := fullListAt.Keys;
      while guilds != {}
        invariant guilds <= fullListAt.Keys <= old(fullListAt.Keys)
        invariant forall g :: g in fullListAt ==> fullListAt[g] == old(fullListAt)[g] && (g in guilds || now - fullListAt[g] < FULL_LIST_INTERVAL)
        invariant forall g :: g in old(fullListAt) && g !in fullListAt ==> now - old(fullListAt)[g] >= FULL_LIST_INTERVAL
        decreases |guilds|
      {
        var g :| g in guilds;
        guilds := guilds - {g};
        if now - fullListAt[g] >= FULL_LIST_INTERVAL { fullListAt := fullListAt - {g}; }
      }
    }

    // A member request up to the point where its frame is written.
    method RequestMembers(guild: string, nonce: string, all: bool, presences: bool, now: int) returns (answer: Answer, ghost order: seq<string>)
      requires Valid() && book.sending.None?
      modifies this
      ensures Enabled(old(Now()), Register(guild, nonce, all, presences, now, order))
      ensures (Now(), answer) == RegisterStep(old(Now()), guild, nonce, all, presences, now, order)
      ensures Valid()
    {
      hide Expire, Within, Recent, Enumerates, OverdueIn, Inv;
      order := ExpireRequests(now);
      RegisterKeeps(old(Now()), guild, nonce, all, presences, now, order);
      if socket != Socket.Open { return Refused(NoSession), order; }
      if all && !guildMembers { return Refused(MissingIntent), order; }
      if presences && !guildPresences { return Refused(MissingIntent), order; }
      PurgeFullLists(now);
      if all && guild in fullListAt && now - fullListAt[guild] < FULL_LIST_INTERVAL { return Refused(FullListTooSoon), order; }
      PurgeEvents(now);
      if |outboundEvents| >= EVENT_LIMIT { return Refused(EventLimit), order; }
      if nonce in chunks { return Refused(NonceInUse), order; }
      if |chunks| >= PENDING_LIMIT { return Refused(TooManyPending), order; }
      chunks := chunks[nonce := Request(nextId, guild, 0, map[], 0, now)];
      outboundEvents := outboundEvents + [now];
      if all { fullListAt := fullListAt[guild := now]; }
      book := book.(nextId := nextId + 1, sending := Some((nonce, nextId)));
      nextId := nextId + 1;
      answer := Accepted;
    }

    // The frame was written, or was not.
    method FrameWritten(ok: bool, nonce: string, id: nat)
      requires Valid() && book.sending == Some((nonce, id))
      modifies this
      ensures Now() == SentStep(old(Now()), ok) && Valid()
    {
      hide Inv;
      SentKeeps(Now(), ok);
      if !ok && nonce in chunks && chunks[nonce].id == id {
        RemoveRequest(nonce);
        book := book.(unsent := book.unsent + multiset{id});
      }
      book := book.(sending := None);
    }

    method MemberChunk(guild: string, nonce: string, index: nat, count: nat, part: Part, now: int) returns (answer: ChunkAnswer, ghost order: seq<string>)
      requires Valid() && index < count <= MAX_CHUNKS
      modifies this
      ensures Enabled(old(Now()), Chunk(guild, nonce, index, count, part, now, order))
      ensures (Now(), answer) == ChunkStep(old(Now()), guild, nonce, index, count, part, order)
      ensures Valid()
    {
      hide Expire, Enumerates, Fail, Assemble, PartBytes, Inv, Remove;
      order := ExpireRequests(now);
      ChunkKeeps(old(Now()), guild, nonce, index, count, part, order);
      if nonce !in chunks { return Ignored, order; }
      var r := chunks[nonce];
      if r.guild != guild || (r.chunkCount != 0 && r.chunkCount != count) {
        FailRequest(nonce, MetadataMismatch);
        return Mismatch, order;
      }
      if index in r.chunks { return Ignored, order; }
      var bytes := PartBytes(part);
      if r.bytes + bytes > AGGREGATE_LIMIT || chunkBytes + bytes > AGGREGATE_LIMIT {
        FailRequest(nonce, AggregateExceeded);
        return TooLarge, order;
      }
      var q := Request(r.id, r.guild, count, r.chunks[index := part], r.bytes + bytes, r.createdAt);
      chunks := chunks[nonce := q];
      chunkBytes := chunkBytes + bytes;
      if |q.chunks| != count { return Incomplete, order; }
      var whole := Collect(q.chunks, count);
      if whole.None? { return Incomplete, order; }
      var result := Result(q.id, q.guild, nonce, whole.value);
      RemoveRequest(nonce);
      book := book.(completing := book.completing + [result]);
      answer := Complete(result);
    }

    // The parts by index; none when one is missing.
    method Collect(parts: map<nat, Part>, count: nat) returns (r: Option<Part>)
      ensures r.Some? <==> forall i :: 0 <= i < count ==> i in parts
      ensures r.Some? ==> r.value == Assemble(parts, count)
    {
      var members, notFound, presences := [], [], [];
      for i := 0 to count
        invariant forall k :: 0 <= k < i ==> k in parts
        invariant Part(members, notFound, presences) == Assemble(parts, i)
      {
        if i !in parts { return None; }
        members := members + parts[i].members;
        notFound := notFound + parts[i].notFound;
        presences := presences + parts[i].presences;
      }
      r := Some(Part(members, notFound, presences));
    }

    // A completed query's text is ready, or could not be made.
    method ResultEncoded(ghost k: nat, r: Result, failure: Option<Reason>)
      requires Valid() && k < |book.completing| && book.completing[k] == r
      requires failure.Some? ==> failure.value == EncodingFailed || failure.value == AggregateExceeded
      modifies this
      ensures Now() == EncodedStep(old(Now()), k, failure) && Valid()
    {
      hide Inv;
      EncodedKeeps(Now(), k, failure);
      book := book.(completing := book.completing[..k] + book.completing[k + 1..]);
      if failure.Some? {
        failures := failures + [Failure(r.id, r.guild, r.nonce, failure.value)];
      } else {
        book := book.(reported := book.reported + multiset{r.id});
      }
    }

    method RateLimited(guild: string, nonce: string, retryAfter: real, now: int) returns (ghost order: seq<string>)
      requires Valid()
      modifies this
      ensures Enabled(old(Now()), RateLimit(guild, nonce, retryAfter, now, order))
      ensures Now() == RateLimitStep(old(Now()), guild, nonce, retryAfter, order) && Valid()
    {
      hide Expire, Enumerates, Fail, Inv;
      order := ExpireRequests(now);
      RateLimitKeeps(old(Now()), guild, nonce, retryAfter, order);
      if nonce !in chunks || chunks[nonce].guild != guild { return; }
      FailRequest(nonce, Reason.RateLimited(retryAfter));
    }

    method TakeFailures(now: int) returns (taken: seq<Failure>, ghost order: seq<string>)
      requires Valid()
      modifies this
      ensures Enabled(old(Now()), Take(now, order))
      ensures (Now(), taken) == TakeStep(old(Now()), order) && Valid()
    {
      hide Expire, Enumerates, Inv;
      order := ExpireRequests(now);
      TakeKeeps(old(Now()), order);
      taken := failures;
      failures := [];
      book := book.(reported := book.reported + FailureIds(taken));
    }
  }

  lemma StartIsSound()
    ensures Inv(Start())
  {}

  // The records of an ended session name every request it still had to answer for, once.
  lemma {:induction false} RecordIds(failures: seq<Failure>, m: map<string, Request>, order: seq<string>)
    requires Enumerates(order, m.Keys)
    ensures FailureIds(failures + EndRecords(m, order)) == FailureIds(failures) + PendingIds(m)
    decreases |order|
  {
    hide PendingIds, FailureIds;
    if order == [] {
      NothingPending();
      assert m == map[] && failures + EndRecords(m, order) == failures;
    } else {
      var k := |order| - 1;
      var n := order[k];
      var rest := m - {n};
      LastOf(order, m.Keys);
      SumWithout(m, n);
      RecordIds(failures, rest, order[..k]);
      SameRecords(m, rest, order[..k]);
      var last := Failure(m[n].id, m[n].guild, n, SessionEnded);
      QueuedFate(failures + EndRecords(rest, order[..k]), last);
      assert failures + EndRecords(m, order) == failures + EndRecords(rest, order[..k]) + [last];
      Regrouped(FailureIds(failures), PendingIds(rest), last.id);
    }
  }

  lemma LastOf(order: seq<string>, names: set<string>)
    requires Enumerates(order, names) && order != []
    ensures var n := order[|order| - 1]; n in names && n !in order[..|order| - 1] && Enumerates(order[..|order| - 1], names - {n})
  {}

  lemma Regrouped(a: multiset<nat>, b: multiset<nat>, x: nat)
    ensures a + b + multiset{x} == a + (b + multiset{x})
  {}

  lemma {:induction false} SameRecords(a: map<string, Request>, b: map<string, Request>, order: seq<string>)
    requires forall n :: n in order ==> n in a && n in b && a[n] == b[n]
    ensures EndRecords(a, order) == EndRecords(b, order)
  {
    if order != [] { SameRecords(a, b, order[..|order| - 1]); }
  }
}
