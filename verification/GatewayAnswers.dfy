// When the gateway session accepts, refuses and expires, stated without the functions it decides with.
module GatewayAnswers {
  import opened Wrappers
  import opened GatewaySteps
  import opened GatewaySafety
  import opened GatewayRuns
  import opened GatewayQueries

  // ---- expiry -----------------------------------------------------------------------------------------

  lemma {:induction false} ExpiredSoFar(s: Session, order: seq<string>)
    requires forall i, j :: 0 <= i < j < |order| ==> order[i] != order[j]
    requires forall n :: n in order ==> n in s.chunks
    ensures var e := Expire(s, order);
      && (forall n :: n in e.chunks <==> n in s.chunks && n !in order)
      && (forall n :: n in e.chunks ==> e.chunks[n] == s.chunks[n])
      && e.failures == s.failures + TimedOut(s, order)
  {
    if order != [] {
      var k := |order| - 1;
      var before, n := order[..k], order[k];
      ExpiredSoFar(s, before);
      assert n !in before && order == before + [n];
      assert TimedOut(s, order) == TimedOut(s, before) + [Failure(s.chunks[n].id, s.chunks[n].guild, n, Timeout)];
      OneExpired(Expire(s, before), n);
      assert Expire(s, order) == Fail(Expire(s, before), n, Timeout);
      hide Expire, Fail, TimedOut;
    }
  }

  lemma OneExpired(s: Session, n: string)
    requires n in s.chunks
    ensures var e := Fail(s, n, Timeout);
      && (forall m :: m in e.chunks <==> m in s.chunks && m != n)
      && (forall m :: m in e.chunks ==> e.chunks[m] == s.chunks[m])
      && e.failures == s.failures + [Failure(s.chunks[n].id, s.chunks[n].guild, n, Timeout)]
  {}

  // One record for each, in order.
  function TimedOut(s: Session, order: seq<string>): (r: seq<Failure>)
    requires forall n :: n in order ==> n in s.chunks
    ensures |r| == |order| && forall i :: 0 <= i < |r| ==> r[i] == Failure(s.chunks[order[i]].id, s.chunks[order[i]].guild, order[i], Timeout)
  {
    seq(|order|, i requires 0 <= i < |order| && order[i] in s.chunks => Failure(s.chunks[order[i]].id, s.chunks[order[i]].guild, order[i], Timeout))
  }

  // After a step that expires, exactly the requests made at most ten minutes ago are left, and each of
  // the others has one record that names it as timed out.
  lemma ExpiryExactly(s: Session, now: int, order: seq<string>)
    requires Enumerates(order, OverdueIn(s, now))
    ensures var e := Expire(s, order);
      && (forall n :: n in e.chunks <==> n in s.chunks && now - s.chunks[n].createdAt <= 600_000)
      && (forall n :: n in e.chunks ==> e.chunks[n] == s.chunks[n])
      && |s.failures| <= |e.failures|
      && forall n :: n in s.chunks && now - s.chunks[n].createdAt > 600_000 ==>
        Failure(s.chunks[n].id, s.chunks[n].guild, n, Timeout) in e.failures[|s.failures|..]
  {
    hide Expire;
    ExpiredSoFar(s, order);
    var e := Expire(s, order);
    forall n | n in s.chunks && now - s.chunks[n].createdAt > 600_000
      ensures Failure(s.chunks[n].id, s.chunks[n].guild, n, Timeout) in e.failures[|s.failures|..]
    {
      assert n in OverdueIn(s, now) && n in order;
      var i :| 0 <= i < |order| && order[i] == n;
      assert e.failures[|s.failures|..] == TimedOut(s, order) && TimedOut(s, order)[i] in TimedOut(s, order);
    }
  }

  // ---- the outgoing events ------------------------------------------------------------------------------

  lemma {:induction false} InWindowSplits(a: seq<int>, b: seq<int>, lo: int)
    ensures InWindow(a + b, lo) == InWindow(a, lo) + InWindow(b, lo)
  {
    if b == [] {
      assert a + b == a;
    } else {
      var k := |b| - 1;
      InWindowSplits(a, b[..k], lo);
      assert (a + b)[..|a + b| - 1] == a + b[..k];
    }
  }

  lemma {:induction false} NoneInWindow(ts: seq<int>, lo: int)
    requires forall i :: 0 <= i < |ts| ==> ts[i] < lo
    ensures InWindow(ts, lo) == 0
  {
    if ts != [] { NoneInWindow(ts[..|ts| - 1], lo); }
  }

  lemma {:induction false} AllInWindow(ts: seq<int>, lo: int)
    requires forall i :: 0 <= i < |ts| ==> lo <= ts[i] < lo + 60_000
    ensures InWindow(ts, lo) == |ts|
  {
    if ts != [] { AllInWindow(ts[..|ts| - 1], lo); }
  }

  lemma {:induction false} WithinIsRecent(ts: seq<int>, now: int)
    ensures forall t :: t in Within(ts, now) ==> t in ts && now - t < 60_000
  {
    if ts != [] { WithinIsRecent(ts[..|ts| - 1], now); }
  }

  // In a run whose stamps do not go back, what a step at `now` finds in the window are the events of
  // the last sixty seconds.
  lemma WindowCounts(run: seq<Action>, now: int)
    requires Runs(run) && Timely(run) && By(run, now)
    ensures |Within(After(run).session.outboundEvents, now)| == InWindow(Events(run), now - 59_999)
  {
    hide After, Runs, Events, Within, InWindow, By, Timely;
    var outbound, events := After(run).session.outboundEvents, Events(run);
    EventsThrottled(run, now);
    PurgedEvents(outbound, events, now, now);
    var w := Within(outbound, now);
    var k := |events| - |w|;
    WithinIsRecent(outbound, now);
    assert events == events[..k] + w;
    InWindowSplits(events[..k], w, now - 59_999);
    NoneInWindow(events[..k], now - 59_999);
    forall i | 0 <= i < |w| ensures now - 59_999 <= w[i] < now + 1 {
      assert w[i] in w && w[i] in outbound;
      OutboundBy(outbound, events, now, w[i]);
    }
    AllInWindow(w, now - 59_999);
  }

  lemma OutboundBy(outbound: seq<int>, events: seq<int>, clock: int, t: int)
    requires Throttled(outbound, events, clock) && t in outbound
    ensures t <= clock
  {
    assert t in events;
  }

  // An update is accepted exactly on an open session with fewer than 110 events in the last sixty
  // seconds, this one not counted.
  lemma SendAcceptedExactly(run: seq<Action>, now: int)
    requires Runs(run) && Timely(run) && By(run, now)
    ensures SendStep(After(run), now).1 == Accepted <==> After(run).session.socket == Socket.Open && InWindow(Events(run), now - 59_999) < 110
  {
    hide After, Runs, Events, Within, InWindow, By, Timely;
    WindowCounts(run, now);
  }

  // A member request is accepted exactly when nothing stands against it, and then, and only then, one
  // request more is pending.
  lemma RegisterAcceptedExactly(run: seq<Action>, a: Action)
    requires a.Register? && Runs(run) && Timely(run) && By(run, a.now) && Enabled(After(run), a)
    ensures var s := After(run);
      var pending := Expire(s.session, a.order).chunks;
      var step := RegisterStep(s, a.guild, a.nonce, a.all, a.presences, a.now, a.order);
      && (step.1 == Accepted <==>
            && s.session.socket == Socket.Open
            && (a.all ==> s.session.guildMembers) && (a.presences ==> s.session.guildPresences)
            && !(a.all && a.guild in s.session.fullListAt && a.now - s.session.fullListAt[a.guild] < 30_000)
            && InWindow(Events(run), a.now - 59_999) < 110
            && a.nonce !in pending && |pending| < 64)
      && step.0.session.chunks ==
           if step.1 == Accepted then pending[a.nonce := Request(s.book.nextId, a.guild, 0, map[], 0, a.now)] else pending
  {
    hide After, Runs, Events, Within, InWindow, By, Timely, Expire;
    WindowCounts(run, a.now);
    ExpireKeepsIntents(After(run).session, a.order);
  }

  lemma {:induction false} ExpireKeepsIntents(s: Session, order: seq<string>)
    ensures var e := Expire(s, order);
      e.socket == s.socket && e.guildMembers == s.guildMembers && e.guildPresences == s.guildPresences
      && e.outboundEvents == s.outboundEvents && e.fullListAt == s.fullListAt
  {
    if order != [] { ExpireKeepsIntents(s, order[..|order| - 1]); }
  }

  // ---- chunks ---------------------------------------------------------------------------------------------

  // What a chunk answers and what it records, case by case.
  lemma ChunkAnswersExactly(s: State, a: Action)
    requires Enabled(s, a) && a.Chunk?
    ensures var e := Expire(s.session, a.order);
      var step := ChunkStep(s, a.guild, a.nonce, a.index, a.count, a.part, a.order);
      if a.nonce !in e.chunks then step.1 == Ignored && step.0.session == e
      else
        var r := e.chunks[a.nonce];
        if r.guild != a.guild || (r.chunkCount > 0 && r.chunkCount != a.count) then
          step.1 == Mismatch && step.0.session.failures == e.failures + [Failure(r.id, r.guild, a.nonce, MetadataMismatch)] && step.0.session.chunks == e.chunks - {a.nonce}
        else if a.index in r.chunks then step.1 == Ignored && step.0.session == e
        else if step.1 == TooLarge then
          step.0.session.failures == e.failures + [Failure(r.id, r.guild, a.nonce, AggregateExceeded)] && step.0.session.chunks == e.chunks - {a.nonce}
        else (step.1 == Incomplete || step.1.Complete?) && step.0.session.failures == e.failures
  {
    hide Expire, Assemble, PartBytes;
  }

  function Flat(lists: seq<seq<Raw>>): seq<Raw> { if lists == [] then [] else Flat(lists[..|lists| - 1]) + lists[|lists| - 1] }

  predicate StandsAt(whole: seq<Raw>, at: nat, part: seq<Raw>) { at + |part| <= |whole| && whole[at..at + |part|] == part }

  // Every list stands whole behind those before it.
  lemma {:induction false} FlatAt(lists: seq<seq<Raw>>, i: nat)
    requires i < |lists|
    ensures StandsAt(Flat(lists), |Flat(lists[..i])|, lists[i])
    ensures i == |lists| - 1 ==> |Flat(lists)| == |Flat(lists[..i])| + |lists[i]|
  {
    var k := |lists| - 1;
    if i < k {
      FlatAt(lists[..k], i);
      assert lists[..k][..i] == lists[..i];
    }
  }

  // The parts of a query in the order of their index.
  function Parts(chunks: map<nat, Part>, n: nat): (r: seq<Part>)
    requires forall i :: 0 <= i < n ==> i in chunks
    ensures |r| == n && forall i :: 0 <= i < n ==> r[i] == chunks[i]
  {
    seq(n, i requires 0 <= i < n && i in chunks => chunks[i])
  }

  function MemberLists(ps: seq<Part>): seq<seq<Raw>> { seq(|ps|, i requires 0 <= i < |ps| => ps[i].members) }

  function NotFoundLists(ps: seq<Part>): seq<seq<Raw>> { seq(|ps|, i requires 0 <= i < |ps| => ps[i].notFound) }

  function PresenceLists(ps: seq<Part>): seq<seq<Raw>> { seq(|ps|, i requires 0 <= i < |ps| => ps[i].presences) }

  // The lists of a completed query are the parts' lists, in the order of their index.
  lemma {:induction false} AssembledInOrder(chunks: map<nat, Part>, n: nat)
    requires forall i :: 0 <= i < n ==> i in chunks
    ensures var p, ps := Assemble(chunks, n), Parts(chunks, n);
      p.members == Flat(MemberLists(ps)) && p.notFound == Flat(NotFoundLists(ps)) && p.presences == Flat(PresenceLists(ps))
  {
    var ps := Parts(chunks, n);
    if n > 0 {
      AssembledInOrder(chunks, n - 1);
      var before := Parts(chunks, n - 1);
      assert MemberLists(ps)[..n - 1] == MemberLists(before);
      assert NotFoundLists(ps)[..n - 1] == NotFoundLists(before);
      assert PresenceLists(ps)[..n - 1] == PresenceLists(before);
    }
  }

  // The part that counts for an index is the first that arrived with it.
  lemma {:induction false} FirstIsFirst(es: seq<Arrival>, k: nat)
    requires k < |es| && forall l :: 0 <= l < k ==> es[l].index != es[k].index
    ensures es[k].index in First(es) && First(es)[es[k].index] == es[k].part
  {
    var n := |es| - 1;
    if k < n {
      FirstIsFirst(es[..n], k);
    } else {
      NotArrived(es[..n], es[k].index);
    }
  }

  lemma {:induction false} NotArrived(es: seq<Arrival>, i: nat)
    requires forall l :: 0 <= l < |es| ==> es[l].index != i
    ensures i !in First(es)
  {
    if es != [] { NotArrived(es[..|es| - 1], i); }
  }

  // ---- the end of a session -----------------------------------------------------------------------------------

  lemma {:induction false} EndRecordsName(m: map<string, Request>, order: seq<string>)
    requires forall n :: n in order ==> n in m
    ensures |EndRecords(m, order)| == |order|
    ensures forall i :: 0 <= i < |order| ==> EndRecords(m, order)[i] == Failure(m[order[i]].id, m[order[i]].guild, order[i], SessionEnded)
  {
    if order != [] { EndRecordsName(m, order[..|order| - 1]); }
  }
}
