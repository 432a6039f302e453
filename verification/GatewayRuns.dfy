// The two throttles of the gateway session over whole runs.
module GatewayRuns {
  import opened Wrappers
  import opened GatewaySteps
  import opened GatewaySafety

  // ---- what a run recorded --------------------------------------------------------------------------

  // The step records an outgoing event.
  ghost predicate Records(s: State, a: Action) {
    match a
    case Send(now) => SendStep(s, now).1.Accepted?
    case Register(g, n, all, p, now, order) => RegisterStep(s, g, n, all, p, now, order).1.Accepted?
    case _ => false
  }

  // Times of the events recorded since the session began; the bind itself is one.
  ghost function Events(run: seq<Action>): seq<int>
    requires Runs(run)
  {
    if run == [] then []
    else
      var s, a := After(run[..|run| - 1]), run[|run| - 1];
      if a.Bind? && s.session.socket != Socket.Open then [a.now]
      else if a.Unbind? then []
      else if Records(s, a) then Events(run[..|run| - 1]) + [Stamp(a).value]
      else Events(run[..|run| - 1])
  }

  // Accepted requests for a full member list, over all sessions.
  ghost function FullLists(run: seq<Action>): seq<(string, int)>
    requires Runs(run)
  {
    if run == [] then []
    else
      var s, a := After(run[..|run| - 1]), run[|run| - 1];
      if a.Register? && a.all && Records(s, a) then FullLists(run[..|run| - 1]) + [(a.guild, a.now)] else FullLists(run[..|run| - 1])
  }

  // The time a step stamps on an outgoing event or a full list. Other steps read the clock for
  // expiry alone, a chunk even before it waits for the lock.
  function Stamp(a: Action): Option<int> {
    match a
    case Bind(_, _, now) => Some(now)
    case Send(now) => Some(now)
    case Register(_, _, _, _, now, _) => Some(now)
    case _ => None
  }

  // Stamps do not go back.
  predicate Timely(run: seq<Action>) {
    forall i, j :: 0 <= i < j < |run| && Stamp(run[i]).Some? && Stamp(run[j]).Some? ==> Stamp(run[i]).value <= Stamp(run[j]).value
  }

  // No stamp of the run is later.
  predicate By(run: seq<Action>, clock: int) { forall a :: a in run && Stamp(a).Some? ==> Stamp(a).value <= clock }

  lemma {:induction false} SomeClock(run: seq<Action>) returns (clock: int)
    ensures By(run, clock)
  {
    clock := 0;
    if run != [] {
      var n := |run| - 1;
      clock := SomeClock(run[..n]);
      if Stamp(run[n]).Some? && clock < Stamp(run[n]).value { clock := Stamp(run[n]).value; }
      assert forall a :: a in run ==> a in run[..n] || a == run[n];
    }
  }

  // ---- 110 events a minute --------------------------------------------------------------------------

  predicate Ascending(ts: seq<int>) { forall i, j :: 0 <= i < j < |ts| ==> ts[i] <= ts[j] }

  // Any 111 events in a row take at least the window.
  predicate Spaced(ts: seq<int>) { forall i :: 0 <= i && i + EVENT_LIMIT < |ts| ==> ts[i + EVENT_LIMIT] - ts[i] >= EVENT_WINDOW }

  lemma {:induction false} WithinIsSuffix(ts: seq<int>, now: int)
    requires Ascending(ts)
    ensures |Within(ts, now)| <= |ts| && Within(ts, now) == ts[|ts| - |Within(ts, now)|..]
    ensures forall i :: 0 <= i < |ts| - |Within(ts, now)| ==> now - ts[i] >= EVENT_WINDOW
  {
    if ts != [] {
      var n := |ts| - 1;
      WithinIsSuffix(ts[..n], now);
      var w := Within(ts[..n], now);
      assert ts == ts[..n] + [ts[n]];
      if now - ts[n] >= EVENT_WINDOW {
        OldAreDropped(ts[..n], now);
      } else {
        assert ts[n - |w|..] == ts[..n][n - |w|..] + [ts[n]];
      }
    }
  }

  lemma {:induction false} OldAreDropped(ts: seq<int>, now: int)
    requires forall i :: 0 <= i < |ts| ==> now - ts[i] >= EVENT_WINDOW
    ensures Within(ts, now) == []
  {
    if ts != [] { OldAreDropped(ts[..|ts| - 1], now); }
  }

  // The session still holds the newest events, and those it let go are a window old.
  ghost predicate Throttled(outbound: seq<int>, events: seq<int>, clock: int) {
    && Ascending(events) && Spaced(events) && |outbound| <= EVENT_LIMIT
    && |outbound| <= |events| && outbound == events[|events| - |outbound|..]
    && (forall t :: t in events ==> t <= clock)
    && forall i :: 0 <= i < |events| - |outbound| ==> clock - events[i] >= EVENT_WINDOW
  }

  lemma PurgeThrottles(outbound: seq<int>, events: seq<int>, clock: int, now: int)
    requires Throttled(outbound, events, clock) && clock <= now
    ensures Throttled(Within(outbound, now), events, now)
    ensures |Within(outbound, now)| < EVENT_LIMIT ==> Throttled(Within(outbound, now) + [now], events + [now], now)
  {
    hide Within;
    var w := Within(outbound, now);
    PurgedEvents(outbound, events, clock, now);
    if |w| < EVENT_LIMIT {
      AppendSpaced(events, |w|, now);
      assert (events + [now])[|events| - |w|..] == w + [now];
    }
  }

  lemma PurgedEvents(outbound: seq<int>, events: seq<int>, clock: int, now: int)
    requires Throttled(outbound, events, clock) && clock <= now
    ensures var w := Within(outbound, now);
      |w| <= |outbound| && w == events[|events| - |w|..] && forall i :: 0 <= i < |events| - |w| ==> now - events[i] >= EVENT_WINDOW
  {
    hide Within;
    var kept := |events| - |outbound|;
    assert forall i :: 0 <= i < |outbound| ==> outbound[i] == events[kept + i];
    WithinIsSuffix(outbound, now);
    var w := Within(outbound, now);
    assert w == events[|events| - |w|..];
    forall i | 0 <= i < |events| - |w| ensures now - events[i] >= EVENT_WINDOW {
      if i >= kept { assert events[i] == outbound[i - kept]; }
    }
  }

  lemma AppendSpaced(events: seq<int>, kept: nat, now: int)
    requires Ascending(events) && Spaced(events) && kept <= |events| && kept < EVENT_LIMIT && forall t :: t in events ==> t <= now
    requires forall i :: 0 <= i < |events| - kept ==> now - events[i] >= EVENT_WINDOW
    ensures Ascending(events + [now]) && Spaced(events + [now])
  {
    forall i | 0 <= i < |events| ensures events[i] <= now { assert events[i] in events; }
  }

  // The outgoing events after the overdue requests are gone and old times are dropped.
  lemma RegisterEvents(s: State, a: Action)
    requires a.Register? && Enabled(s, a)
    ensures var t := Next(s, a).session;
      if Records(s, a) then
        t.outboundEvents == Within(s.session.outboundEvents, a.now) + [a.now] && |Within(s.session.outboundEvents, a.now)| < EVENT_LIMIT
      else t.outboundEvents == s.session.outboundEvents || t.outboundEvents == Within(s.session.outboundEvents, a.now)
    ensures var t := Next(s, a).session;
      if Records(s, a) && a.all then
        t.fullListAt == Recent(s.session.fullListAt, a.now)[a.guild := a.now] && a.guild !in Recent(s.session.fullListAt, a.now)
      else t.fullListAt == s.session.fullListAt || t.fullListAt == Recent(s.session.fullListAt, a.now)
  {
    hide Within, Recent;
    ExpireOnly(s.session, a.order);
  }

  // Expiry touches nothing but the requests, their bytes and the records.
  lemma {:induction false} ExpireOnly(s: Session, order: seq<string>)
    ensures var e := Expire(s, order);
      e.outboundEvents == s.outboundEvents && e.fullListAt == s.fullListAt && e.socket == s.socket
  {
    if order != [] { ExpireOnly(s, order[..|order| - 1]); }
  }

  lemma OtherStepsLeaveTimes(s: State, a: Action)
    requires Enabled(s, a) && !a.Bind? && !a.Unbind? && !a.Send? && !a.Register?
    ensures Next(s, a).session.outboundEvents == s.session.outboundEvents && Next(s, a).session.fullListAt == s.session.fullListAt
  {
    hide Within, Recent, Assemble;
    match a
    case Chunk(g, n, i, c, part, _, order) => ExpireOnly(s.session, order);
    case RateLimit(_, _, _, _, order) => ExpireOnly(s.session, order);
    case Take(_, order) => ExpireOnly(s.session, order);
    case _ =>
  }

  lemma RunSplits(run: seq<Action>, clock: int)
    requires run != [] && By(run, clock) && Timely(run)
    ensures Timely(run[..|run| - 1])
    ensures var a := run[|run| - 1]; if Stamp(a).Some? then Stamp(a).value <= clock && By(run[..|run| - 1], Stamp(a).value) else By(run[..|run| - 1], clock)
  {
    var n := |run| - 1;
    forall a | a in run[..n] && Stamp(a).Some? && Stamp(run[n]).Some? ensures Stamp(a).value <= Stamp(run[n]).value {
      var i :| 0 <= i < n && run[i] == a;
    }
  }

  lemma {:induction false} EventsThrottled(run: seq<Action>, clock: int)
    requires Runs(run) && Timely(run) && By(run, clock)
    ensures Throttled(After(run).session.outboundEvents, Events(run), clock)
    decreases |run|
  {
    if run != [] {
      var n := |run| - 1;
      var s, a := After(run[..n]), run[n];
      RunSplits(run, clock);
      var now := if Stamp(a).Some? then Stamp(a).value else clock;
      EventsThrottled(run[..n], now);
      EventsStep(s, a, Events(run[..n]), Events(run), now);
      LaterThrottled(After(run).session.outboundEvents, Events(run), now, clock);
    }
  }

  lemma LaterThrottled(outbound: seq<int>, events: seq<int>, now: int, clock: int)
    requires Throttled(outbound, events, now) && now <= clock
    ensures Throttled(outbound, events, clock)
  {}

  lemma EventsStep(s: State, a: Action, before: seq<int>, after: seq<int>, now: int)
    requires Enabled(s, a) && Throttled(s.session.outboundEvents, before, now) && (Stamp(a).Some? ==> Stamp(a).value == now)
    requires after == if a.Bind? && s.session.socket != Socket.Open then [a.now] else if a.Unbind? then [] else if Records(s, a) then before + [now] else before
    ensures Throttled(Next(s, a).session.outboundEvents, after, now)
  {
    hide Within, Throttled;
    PurgeThrottles(s.session.outboundEvents, before, now, now);
    match a
    case Bind(_, _, _) => StartsThrottled(now);
    case Unbind => StartsThrottled(now);
    case Send(_) =>
    case Register(_, _, _, _, _, _) => RegisterEvents(s, a);
    case _ => OtherStepsLeaveTimes(s, a);
  }

  lemma StartsThrottled(now: int)
    ensures Throttled([now], [now], now) && Throttled([], [], now)
  {}

  // How many events lie in the sixty seconds from `lo`.
  function InWindow(ts: seq<int>, lo: int): nat {
    if ts == [] then 0
    else InWindow(ts[..|ts| - 1], lo) + if lo <= ts[|ts| - 1] < lo + EVENT_WINDOW then 1 else 0
  }

  lemma {:induction false} InWindowFrom(ts: seq<int>, k: nat, lo: int)
    requires k <= |ts| && forall i :: 0 <= i < k ==> ts[i] < lo
    ensures InWindow(ts, lo) <= |ts| - k
  {
    if ts != [] { InWindowFrom(ts[..|ts| - 1], if k == |ts| then k - 1 else k, lo); }
  }

  lemma {:induction false} SpacedWindow(ts: seq<int>, lo: int)
    requires Ascending(ts) && Spaced(ts)
    ensures InWindow(ts, lo) <= EVENT_LIMIT
  {
    if |ts| > EVENT_LIMIT {
      var n := |ts| - 1;
      SpacedWindow(ts[..n], lo);
      if lo <= ts[n] < lo + EVENT_WINDOW {
        var k := |ts| - EVENT_LIMIT;
        assert ts[n] - ts[k - 1] >= EVENT_WINDOW by { assert k - 1 + EVENT_LIMIT == n; }
        InWindowFrom(ts, k, lo);
      }
    } else {
      InWindowFrom(ts, 0, lo);
    }
  }

  // In every run whose stamps do not go back, any sixty seconds hold at most 110 recorded events.
  lemma WindowHoldsAtMost110(run: seq<Action>, lo: int)
    requires Runs(run) && Timely(run)
    ensures InWindow(Events(run), lo) <= EVENT_LIMIT
  {
    var clock := SomeClock(run);
    EventsThrottled(run, clock);
    SpacedWindow(Events(run), lo);
  }

  // ---- one full member list a guild in thirty seconds -------------------------------------------------

  ghost predicate Apart(fulls: seq<(string, int)>) {
    forall i, j :: 0 <= i < j < |fulls| && fulls[i].0 == fulls[j].0 ==> fulls[j].1 - fulls[i].1 >= FULL_LIST_INTERVAL
  }

  ghost predicate Remembered(at: map<string, int>, fulls: seq<(string, int)>, clock: int) {
    Apart(fulls) && forall f :: f in fulls ==> (f.0 in at && f.1 <= at[f.0]) || clock - f.1 >= FULL_LIST_INTERVAL
  }

  lemma {:induction false} FullListsRemembered(run: seq<Action>, clock: int)
    requires Runs(run) && Timely(run) && By(run, clock)
    ensures Remembered(After(run).session.fullListAt, FullLists(run), clock)
    decreases |run|
  {
    hide Within;
    if run != [] {
      var n := |run| - 1;
      var s, a := After(run[..n]), run[n];
      RunSplits(run, clock);
      var now := if Stamp(a).Some? then Stamp(a).value else clock;
      FullListsRemembered(run[..n], now);
      FullListStep(s, a, FullLists(run[..n]), FullLists(run), now);
      LaterRemembered(After(run).session.fullListAt, FullLists(run), now, clock);
    }
  }

  lemma LaterRemembered(at: map<string, int>, fulls: seq<(string, int)>, now: int, clock: int)
    requires Remembered(at, fulls, now) && now <= clock
    ensures Remembered(at, fulls, clock)
  {}

  lemma FullListStep(s: State, a: Action, before: seq<(string, int)>, after: seq<(string, int)>, now: int)
    requires Enabled(s, a) && Remembered(s.session.fullListAt, before, now) && (Stamp(a).Some? ==> Stamp(a).value == now)
    requires after == if a.Register? && a.all && Records(s, a) then before + [(a.guild, a.now)] else before
    ensures Remembered(Next(s, a).session.fullListAt, after, now)
  {
    hide Within, Recent, Remembered, Expire;
    RecentRemembers(s.session.fullListAt, before, now);
    match a
    case Register(g, _, all, _, _, _) =>
      RegisterEvents(s, a);
      if all && Records(s, a) { AddFullList(s.session.fullListAt, before, now, g); }
    case Bind(_, _, _) =>
    case Unbind =>
    case Send(_) =>
    case _ => OtherStepsLeaveTimes(s, a);
  }

  lemma RecentRemembers(at: map<string, int>, fulls: seq<(string, int)>, now: int)
    requires Remembered(at, fulls, now)
    ensures Remembered(Recent(at, now), fulls, now)
  {}

  lemma AddFullList(at: map<string, int>, fulls: seq<(string, int)>, now: int, guild: string)
    requires Remembered(at, fulls, now) && guild !in Recent(at, now)
    ensures Remembered(Recent(at, now)[guild := now], fulls + [(guild, now)], now)
  {
    forall i | 0 <= i < |fulls| && fulls[i].0 == guild ensures now - fulls[i].1 >= FULL_LIST_INTERVAL {
      assert fulls[i] in fulls;
    }
  }

  // Two full lists of one guild are asked for at least thirty seconds apart, even by different
  // sessions.
  lemma FullListsApart(run: seq<Action>, i: nat, j: nat)
    requires Runs(run) && Timely(run)
    requires i < j < |FullLists(run)| && FullLists(run)[i].0 == FullLists(run)[j].0
    ensures FullLists(run)[j].1 - FullLists(run)[i].1 >= FULL_LIST_INTERVAL
  {
    var clock := SomeClock(run);
    FullListsRemembered(run, clock);
  }

  // ---- a stale clock ---------------------------------------------------------------------------------

  // A member request reads the clock before it waits for the lock, so its stamp may go back behind
  // the step before. The runs below do that once: 110 events at time zero, one at sixty seconds
  // that purges them, and a request stamped any amount earlier.
  function Burst(k: nat): seq<Action> {
    if k == 0 then [Bind(false, false, 0)] else Burst(k - 1) + [Send(0)]
  }

  function Zeros(k: nat): (r: seq<int>)
    ensures |r| == k
  {
    if k == 0 then [] else Zeros(k - 1) + [0]
  }

  lemma {:induction false} ZerosStay(k: nat)
    ensures Within(Zeros(k), 0) == Zeros(k) && Within(Zeros(k), EVENT_WINDOW) == []
    ensures forall i :: 0 <= i < k ==> Zeros(k)[i] == 0
  {
    if k > 0 {
      ZerosStay(k - 1);
      assert Zeros(k)[..k - 1] == Zeros(k - 1);
    }
  }

  ghost predicate InSession(s: State, events: seq<int>) {
    s.session.socket == Socket.Open && s.session.outboundEvents == events && s.session.chunks == map[] && s.book.sending.None?
  }

  // One more step.
  lemma RunSnoc(run: seq<Action>, a: Action)
    requires Runs(run) && Enabled(After(run), a)
    ensures Runs(run + [a]) && After(run + [a]) == Next(After(run), a)
    ensures !a.Bind? && !a.Unbind? ==> Events(run + [a]) == Events(run) + if Records(After(run), a) then [Stamp(a).value] else []
  {
    hide Next, Enabled, Records;
    assert (run + [a])[..|run|] == run;
  }

  lemma SendAccepted(s: State, k: nat, now: int)
    requires 0 < k <= EVENT_LIMIT && InSession(s, Zeros(k)) && (now == EVENT_WINDOW || (now == 0 && k < EVENT_LIMIT))
    ensures Enabled(s, Send(now)) && Records(s, Send(now))
    ensures InSession(Next(s, Send(now)), if now == 0 then Zeros(k + 1) else [EVENT_WINDOW])
  {
    ZerosStay(k);
  }

  lemma {:induction false} BurstRuns(k: nat)
    requires k < EVENT_LIMIT
    ensures Runs(Burst(k)) && InSession(After(Burst(k)), Zeros(k + 1)) && Events(Burst(k)) == Zeros(k + 1)
  {
    hide InSession, Next, Enabled, Records, Runs, After, Events, Zeros, Burst;
    if k == 0 {
      BindRuns();
    } else {
      BurstRuns(k - 1);
      BurstUnfolds(k);
      SendRuns(Burst(k - 1), k);
    }
  }

  lemma SendRuns(run: seq<Action>, k: nat)
    requires 0 < k < EVENT_LIMIT && Runs(run) && InSession(After(run), Zeros(k)) && Events(run) == Zeros(k)
    ensures Runs(run + [Send(0)]) && InSession(After(run + [Send(0)]), Zeros(k + 1)) && Events(run + [Send(0)]) == Zeros(k + 1)
  {
    hide InSession, Next, Enabled, Records, Runs, After, Events, Zeros;
    BurstUnfolds(k);
    SendAccepted(After(run), k, 0);
    RunSnoc(run, Send(0));
  }

  lemma BurstUnfolds(k: nat)
    requires k > 0
    ensures Burst(k) == Burst(k - 1) + [Send(0)] && Zeros(k + 1) == Zeros(k) + [0]
  {}

  lemma BindRuns()
    ensures Runs(Burst(0)) && InSession(After(Burst(0)), Zeros(1)) && Events(Burst(0)) == Zeros(1)
  {
    assert Burst(0)[..0] == [] && Zeros(1) == [0];
    assert Enabled(Start(), Bind(false, false, 0));
  }

  // The stamps go back once, at step `k`, which is a member request, and by `back`.
  ghost predicate GoesBackOnce(run: seq<Action>, k: nat, back: int) {
    && 0 < k < |run| && run[k].Register? && Timely(run[..k]) && Timely(run[k..])
    && Stamp(run[k - 1]).Some? && Stamp(run[k - 1]).value - Stamp(run[k]).value == back
  }

  function Late(back: int): Action { Register("1", "n", false, false, EVENT_WINDOW - back, []) }

  function StaleRun(back: int): seq<Action> {
    Burst(EVENT_LIMIT - 1) + [Send(EVENT_WINDOW)] + [Late(back)] + [Sent(true)] + [Send(0)]
  }

  lemma {:induction false} BurstTimes(k: nat)
    ensures |Burst(k)| == k + 1 && forall a :: a in Burst(k) ==> Stamp(a) == Some(0)
  {
    if k > 0 { BurstTimes(k - 1); }
  }

  lemma {:induction false} ZerosInWindow(k: nat)
    ensures InWindow(Zeros(k), 0) == k
  {
    if k > 0 {
      ZerosInWindow(k - 1);
      assert Zeros(k)[..k - 1] == Zeros(k - 1);
    }
  }

  lemma InWindowSnoc(ts: seq<int>, t: int, lo: int)
    ensures InWindow(ts + [t], lo) == InWindow(ts, lo) + if lo <= t < lo + EVENT_WINDOW then 1 else 0
  {
    assert (ts + [t])[..|ts|] == ts;
  }

  // Nothing less than ordered stamps will do: one step back, of any size, is enough for 111 events
  // in one window.
  lemma StaleClockBreaksTheWindow(back: int)
    requires back > 0
    ensures exists run, k :: Runs(run) && GoesBackOnce(run, k, back) && InWindow(Events(run), 0) > EVENT_LIMIT
  {
    hide InSession, Next, Enabled, Records, Runs, After, Events, Burst, Zeros, InWindow, GoesBackOnce, Timely;
    var burst := Burst(EVENT_LIMIT - 1);
    BurstRuns(EVENT_LIMIT - 1);
    SendAccepted(After(burst), EVENT_LIMIT, EVENT_WINDOW);
    RunSnoc(burst, Send(EVENT_WINDOW));
    var later := burst + [Send(EVENT_WINDOW)];
    StaleAccepted(After(later), back);
    RunSnoc(later, Late(back));
    var stale := later + [Late(back)];
    GoesBack(back);
    ZerosInWindow(EVENT_LIMIT);
    InWindowSnoc(Zeros(EVENT_LIMIT), EVENT_WINDOW, 0);
    InWindowSnoc(Zeros(EVENT_LIMIT) + [EVENT_WINDOW], EVENT_WINDOW - back, 0);
    if back > EVENT_WINDOW {
      FrameThenSend(After(later), back);
      RunSnoc(stale, Sent(true));
      RunSnoc(stale + [Sent(true)], Send(0));
      InWindowSnoc(Zeros(EVENT_LIMIT) + [EVENT_WINDOW] + [EVENT_WINDOW - back], 0, 0);
      assert Runs(StaleRun(back)) && Events(StaleRun(back)) == Zeros(EVENT_LIMIT) + [EVENT_WINDOW] + [EVENT_WINDOW - back] + [0];
    }
  }

  lemma GoesBack(back: int)
    requires back > 0
    ensures GoesBackOnce(Burst(EVENT_LIMIT - 1) + [Send(EVENT_WINDOW)] + [Late(back)], EVENT_LIMIT + 1, back)
    ensures back > EVENT_WINDOW ==> GoesBackOnce(StaleRun(back), EVENT_LIMIT + 1, back)
  {
    hide Burst;
    var k := EVENT_LIMIT + 1;
    var burst := Burst(EVENT_LIMIT - 1);
    BurstTimes(EVENT_LIMIT - 1);
    var short := burst + [Send(EVENT_WINDOW)] + [Late(back)];
    assert short[..k] == burst + [Send(EVENT_WINDOW)] && short[k..] == [Late(back)];
    var long := StaleRun(back);
    assert long[..k] == burst + [Send(EVENT_WINDOW)] && long[k..] == [Late(back), Sent(true), Send(0)];
  }

  lemma StaleAccepted(s: State, back: int)
    requires InSession(s, [EVENT_WINDOW]) && back > 0
    ensures Enabled(s, Late(back)) && Records(s, Late(back)) && Stamp(Late(back)) == Some(EVENT_WINDOW - back)
    ensures var t := Next(s, Late(back)); t.session.socket == Socket.Open && t.session.outboundEvents == [EVENT_WINDOW, EVENT_WINDOW - back] && t.book.sending.Some?
  {
    assert [EVENT_WINDOW][..0] == [] && Within([], EVENT_WINDOW - back) == [];
    assert Within([EVENT_WINDOW], EVENT_WINDOW - back) == [EVENT_WINDOW];
    assert OverdueIn(s.session, EVENT_WINDOW - back) == {};
    assert Expire(s.session, []) == s.session;
  }

  lemma FrameThenSend(s: State, back: int)
    requires InSession(s, [EVENT_WINDOW]) && back > 0 && Enabled(s, Late(back))
    ensures var t := Next(s, Late(back));
      Enabled(t, Sent(true)) && !Records(t, Sent(true)) && Enabled(Next(t, Sent(true)), Send(0)) && Records(Next(t, Sent(true)), Send(0))
  {
    hide Within;
    StaleAccepted(s, back);
    var t := Next(s, Late(back));
    WithinIsShorter(t.session.outboundEvents, 0);
  }

  lemma {:induction false} WithinIsShorter(ts: seq<int>, now: int)
    ensures |Within(ts, now)| <= |ts|
  {
    if ts != [] { WithinIsShorter(ts[..|ts| - 1], now); }
  }
}
