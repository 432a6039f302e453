// The Discord HTTP rate limiter: buckets learned from response headers, and the grants they allow.
module RateLimit {

  import opened Wrappers

  // A route's key: its canonical path and its major parameters.
  datatype Route = Route(path: string, major: string)

  datatype BucketId = BucketId(app: string, hash: string, major: string)

  datatype Bucket = Bucket(remaining: int, resetAt: int)

  // What the mutex guards. Times are instants on one clock; zero is before every deadline.
  datatype Limiter = Limiter(routeBucket: map<(string, Route), BucketId>, buckets: map<BucketId, Bucket>, globalUntil: map<string, int>)

  // ---- asking --------------------------------------------------------------------------------------

  function GlobalUntil(l: Limiter, app: string): int { if app in l.globalUntil then l.globalUntil[app] else 0 }

  // The instant a request must wait for.
  function Until(l: Limiter, app: string, route: Route): int {
    var until := GlobalUntil(l, app);
    if (app, route) in l.routeBucket && l.routeBucket[(app, route)] in l.buckets then
      var b := l.buckets[l.routeBucket[(app, route)]];
      if b.remaining <= 0 && b.resetAt > until then b.resetAt else until
    else until
  }

  // One look at the limits: a grant takes one from the bucket.
  function AskStep(l: Limiter, app: string, route: Route, now: int): (Limiter, bool) {
    if Until(l, app, route) > now then (l, false)
    else if (app, route) in l.routeBucket && l.routeBucket[(app, route)] in l.buckets then
      var id := l.routeBucket[(app, route)];
      var b := l.buckets[id];
      (if b.remaining > 0 then l.(buckets := l.buckets[id := b.(remaining := b.remaining - 1)]) else l, true)
    else (l, true)
  }

  // ---- learning ------------------------------------------------------------------------------------

  const MAX_RESET: int := 3_600_000_000_000

  // A response's rate-limit headers, in nanoseconds; numbers that do not parse are absent.
  datatype Response = Response(
    tooMany: bool, retryAfter: int, global: bool, scopeGlobal: bool, headerGlobal: bool,
    resetAfter: Option<int>, remaining: Option<int>, bucket: string)

  function Limited(r: Response): bool { r.tooMany && r.retryAfter > 0 }

  function ResetAfter(r: Response): int {
    if Limited(r) then r.retryAfter
    else if r.resetAfter.None? || r.resetAfter.value < 0 || r.resetAfter.value > MAX_RESET then 0
    else r.resetAfter.value
  }

  function Remaining(r: Response): int {
    if Limited(r) || r.remaining.None? || r.remaining.value < 0 then 0 else r.remaining.value
  }

  function IsGlobal(r: Response): bool { r.global || r.scopeGlobal || (Limited(r) && r.headerGlobal) }

  // While a window is open a bucket keeps the earlier reset and the smaller count.
  function Merged(had: Option<Bucket>, seen: Bucket, now: int): Bucket {
    if had.Some? && had.value.resetAt > now then
      Bucket(if had.value.remaining < seen.remaining then had.value.remaining else seen.remaining,
             if had.value.resetAt < seen.resetAt then had.value.resetAt else seen.resetAt)
    else seen
  }

  function Find(l: Limiter, id: BucketId): Option<Bucket> { if id in l.buckets then Some(l.buckets[id]) else None }

  function ObserveStep(l: Limiter, app: string, route: Route, r: Response, now: int): Limiter {
    var resetAt := now + ResetAfter(r);
    var g := if IsGlobal(r) && resetAt > GlobalUntil(l, app) then l.(globalUntil := l.globalUntil[app := resetAt]) else l;
    if r.bucket == "" then g
    else
      var id := BucketId(app, r.bucket, route.major);
      g.(routeBucket := g.routeBucket[(app, route) := id],
         buckets := g.buckets[id := Merged(Find(l, id), Bucket(Remaining(r), resetAt), now)])
  }

  // ---- runs ----------------------------------------------------------------------------------------

  datatype Action = Ask(app: string, route: Route, now: int) | Observe(app: string, route: Route, response: Response, now: int)

  function Next(l: Limiter, a: Action): Limiter {
    match a
    case Ask(app, route, now) => AskStep(l, app, route, now).0
    case Observe(app, route, r, now) => ObserveStep(l, app, route, r, now)
  }

  function After(run: seq<Action>): Limiter {
    From(Limiter(map[], map[], map[]), run)
  }

  function From(l: Limiter, others: seq<Action>): Limiter {
    if others == [] then l else Next(From(l, others[..|others| - 1]), others[|others| - 1])
  }

  function Between(l: Limiter, others: seq<seq<Action>>): Limiter {
    if others == [] then l else From(Between(l, others[..|others| - 1]), others[|others| - 1])
  }

  // The bucket's current window: what was first observed of it, and the grants charged to it before
  // its reset.
  datatype Window = Window(first: int, reset: int, charged: nat)

  predicate Opens(l: Limiter, a: Action, id: BucketId) {
    a.Observe? && a.response.bucket != "" && BucketId(a.app, a.response.bucket, a.route.major) == id && !(id in l.buckets && l.buckets[id].resetAt > a.now)
  }

  predicate Charges(l: Limiter, a: Action, id: BucketId) {
    && a.Ask? && AskStep(l, a.app, a.route, a.now).1
    && (a.app, a.route) in l.routeBucket && l.routeBucket[(a.app, a.route)] == id && id in l.buckets && l.buckets[id].resetAt > a.now
  }

  function WindowOf(run: seq<Action>, id: BucketId): Option<Window> {
    if run == [] then None
    else
      var l, a, before := After(run[..|run| - 1]), run[|run| - 1], WindowOf(run[..|run| - 1], id);
      if Opens(l, a, id) then Some(Window(Remaining(a.response), a.now + ResetAfter(a.response), 0))
      else if Charges(l, a, id) && before.Some? then Some(before.value.(charged := before.value.charged + 1))
      else before
  }

  // The deadlines of an application announced so far.
  function Deadlines(run: seq<Action>, app: string): seq<int> {
    if run == [] then []
    else
      var a, before := run[|run| - 1], Deadlines(run[..|run| - 1], app);
      if a.Observe? && a.app == app && IsGlobal(a.response) then before + [a.now + ResetAfter(a.response)] else before
  }

  // ---- what every run keeps ----------------------------------------------------------------------------

  ghost predicate BucketOk(l: Limiter, w: Option<Window>, id: BucketId) {
    id in l.buckets ==>
      w.Some? && l.buckets[id].remaining >= 0 && l.buckets[id].resetAt <= w.value.reset
      && w.value.charged + l.buckets[id].remaining <= w.value.first
  }

  lemma {:induction false} WindowsHold(run: seq<Action>, id: BucketId)
    ensures BucketOk(After(run), WindowOf(run, id), id)
    ensures WindowOf(run, id).Some? ==> 0 <= WindowOf(run, id).value.charged <= WindowOf(run, id).value.first && id in After(run).buckets
  {
    if run != [] {
      var k := |run| - 1;
      WindowsHold(run[..k], id);
      var l, a := After(run[..k]), run[k];
      match a
      case Ask(app, route, now) =>
      case Observe(app, route, r, now) =>
    }
  }

  // Until the stored reset passes, the grants charged to a bucket are at most the remaining count
  // its window opened with, and the stored reset is never later than the one it opened with.
  lemma GrantsWithinWindow(run: seq<Action>, id: BucketId)
    requires id in After(run).buckets
    ensures WindowOf(run, id).Some?
    ensures var w := WindowOf(run, id).value;
      w.charged <= w.first - After(run).buckets[id].remaining <= w.first && After(run).buckets[id].resetAt <= w.reset
  {
    WindowsHold(run, id);
  }

  // While the window is open the next observation moves the reset only earlier and the count only
  // down.
  lemma OpenWindowOnlyTightens(l: Limiter, app: string, route: Route, r: Response, now: int, id: BucketId)
    requires id in l.buckets && l.buckets[id].resetAt > now
    ensures var b := ObserveStep(l, app, route, r, now).buckets[id];
      b.resetAt <= l.buckets[id].resetAt && b.remaining <= l.buckets[id].remaining
  {}

  lemma {:induction false} DeadlinesHold(run: seq<Action>, app: string)
    ensures forall d :: d in Deadlines(run, app) ==> d <= GlobalUntil(After(run), app)
  {
    if run != [] {
      var k := |run| - 1;
      DeadlinesHold(run[..k], app);
      var l, a := After(run[..k]), run[k];
      match a
      case Ask(other, route, now) => AskLeavesGlobal(l, other, route, now);
      case Observe(other, route, r, now) =>
    }
  }

  lemma AskLeavesGlobal(l: Limiter, app: string, route: Route, now: int)
    ensures AskStep(l, app, route, now).0.globalUntil == l.globalUntil
  {}

  // No request of an application is granted before any global deadline announced to it.
  lemma NoGrantBeforeDeadline(run: seq<Action>, app: string, route: Route, now: int, d: int)
    requires d in Deadlines(run, app) && AskStep(After(run), app, route, now).1
    ensures d <= now
  {
    DeadlinesHold(run, app);
  }

  // A refused request with its wait is stored exactly when it is not longer than the reset of a
  // window still open: then the earlier reset stays, and a request after it is granted too soon.
  lemma RetryAfterStored(l: Limiter, app: string, route: Route, r: Response, now: int)
    requires Limited(r) && r.bucket != ""
    ensures var id := BucketId(app, r.bucket, route.major);
      var b := ObserveStep(l, app, route, r, now).buckets[id];
      (b.resetAt == now + r.retryAfter <==> !(id in l.buckets && now < l.buckets[id].resetAt < now + r.retryAfter))
      && ((id in l.buckets && l.buckets[id].resetAt > now ==> l.buckets[id].remaining >= 0) ==> b.remaining == 0)
  {}

  lemma GrantedTooSoon(l: Limiter, app: string, route: Route, r: Response, now: int, later: int)
    requires Limited(r) && r.bucket != "" && !IsGlobal(r)
    requires var id := BucketId(app, r.bucket, route.major); id in l.buckets && now < l.buckets[id].resetAt <= later < now + r.retryAfter
    requires GlobalUntil(l, app) <= later
    ensures AskStep(ObserveStep(l, app, route, r, now), app, route, later).1
  {}

  // ---- the same laws over what the responses say ----------------------------------------------------------

  // The response that opened the bucket's current window.
  function Opener(run: seq<Action>, id: BucketId): (o: Option<Action>)
    ensures o.Some? ==> o.value.Observe?
  {
    if run == [] then None
    else if Opens(After(run[..|run| - 1]), run[|run| - 1], id) then Some(run[|run| - 1])
    else Opener(run[..|run| - 1], id)
  }

  lemma {:induction false} WindowIsOpener(run: seq<Action>, id: BucketId)
    ensures WindowOf(run, id).Some? <==> Opener(run, id).Some?
    ensures Opener(run, id).Some? ==>
      var o := Opener(run, id).value;
      o in run && WindowOf(run, id).value.first == Remaining(o.response) && WindowOf(run, id).value.reset == o.now + ResetAfter(o.response)
  {
    if run != [] { WindowIsOpener(run[..|run| - 1], id); }
  }

  // As long as a bucket's window is open, the grants charged to it are at most the count that the
  // response which opened it announced, and none after a 429 with a wait or without a usable count;
  // and the window is never stored as longer than that response announced.
  lemma GrantsAsAnnounced(run: seq<Action>, id: BucketId)
    requires id in After(run).buckets
    ensures Opener(run, id).Some? && WindowOf(run, id).Some?
    ensures var r := Opener(run, id).value.response;
      WindowOf(run, id).value.charged + After(run).buckets[id].remaining <=
      if r.tooMany && r.retryAfter > 0 then 0 else if r.remaining.Some? && r.remaining.value >= 0 then r.remaining.value else 0
    ensures var o := Opener(run, id).value;
      After(run).buckets[id].resetAt <= o.now +
      if o.response.tooMany && o.response.retryAfter > 0 then o.response.retryAfter
      else if o.response.resetAfter.Some? && 0 <= o.response.resetAfter.value <= 3600 * 1_000_000_000 then o.response.resetAfter.value
      else 0
  {
    WindowsHold(run, id);
    WindowIsOpener(run, id);
  }

  // The response that opens a window is stored as it stands.
  lemma OpenedAsAnnounced(l: Limiter, a: Action, id: BucketId)
    requires Opens(l, a, id)
    ensures var r := a.response;
      && id in Next(l, a).buckets && (a.app, a.route) in Next(l, a).routeBucket && Next(l, a).routeBucket[(a.app, a.route)] == id
      && Next(l, a).buckets[id].remaining ==
           (if r.tooMany && r.retryAfter > 0 then 0 else if r.remaining.Some? && r.remaining.value >= 0 then r.remaining.value else 0)
      && Next(l, a).buckets[id].resetAt == a.now +
           (if r.tooMany && r.retryAfter > 0 then r.retryAfter
            else if r.resetAfter.Some? && 0 <= r.resetAfter.value <= 3600 * 1_000_000_000 then r.resetAfter.value
            else 0)
  {}

  lemma {:induction false} DeadlineOf(run: seq<Action>, k: nat, app: string)
    requires k < |run| && run[k].Observe? && run[k].app == app
    requires var r := run[k].response; r.global || r.scopeGlobal || (r.tooMany && r.retryAfter > 0 && r.headerGlobal)
    ensures run[k].now + ResetAfter(run[k].response) in Deadlines(run, app)
  {
    var n := |run| - 1;
    if k < n { DeadlineOf(run[..n], k, app); }
  }

  // No request of an application is granted while a global limit that was announced to it lasts.
  lemma NoGrantUnderGlobal(run: seq<Action>, k: nat, app: string, route: Route, now: int)
    requires k < |run| && run[k].Observe? && run[k].app == app && AskStep(After(run), app, route, now).1
    requires var r := run[k].response; r.global || r.scopeGlobal || (r.tooMany && r.retryAfter > 0 && r.headerGlobal)
    ensures var r := run[k].response;
      now >= run[k].now +
        if r.tooMany && r.retryAfter > 0 then r.retryAfter
        else if r.resetAfter.Some? && 0 <= r.resetAfter.value <= 3600 * 1_000_000_000 then r.resetAfter.value
        else 0
  {
    DeadlineOf(run, k, app);
    NoGrantBeforeDeadline(run, app, route, now, run[k].now + ResetAfter(run[k].response));
  }

  // Nothing but such an announcement puts a global limit in place.
  lemma {:induction false} GlobalIsAnnounced(run: seq<Action>, app: string)
    ensures GlobalUntil(After(run), app) == 0 || exists k :: 0 <= k < |run| && Announces(run[k], app, GlobalUntil(After(run), app))
  {
    if run != [] {
      var n := |run| - 1;
      GlobalIsAnnounced(run[..n], app);
      if GlobalUntil(After(run), app) == GlobalUntil(After(run[..n]), app) {
        if k :| 0 <= k < n && Announces(run[..n][k], app, GlobalUntil(After(run), app)) { assert Announces(run[k], app, GlobalUntil(After(run), app)); }
      } else {
        assert Announces(run[n], app, GlobalUntil(After(run), app));
      }
    }
  }

  predicate Announces(a: Action, app: string, until: int) {
    && a.Observe? && a.app == app
    && (a.response.global || a.response.scopeGlobal || (a.response.tooMany && a.response.retryAfter > 0 && a.response.headerGlobal))
    && until == a.now +
         (if a.response.tooMany && a.response.retryAfter > 0 then a.response.retryAfter
          else if a.response.resetAfter.Some? && 0 <= a.response.resetAfter.value <= 3600 * 1_000_000_000 then a.response.resetAfter.value
          else 0)
  }

  // ---- a refused request's wait ------------------------------------------------------------------------

  // Every request on the route before the instant is refused.
  ghost predicate Refuses(l: Limiter, app: string, route: Route, d: int) {
    forall now :: now < d ==> !AskStep(l, app, route, now).1
  }

  // The route's bucket is empty until the instant.
  predicate Held(l: Limiter, app: string, route: Route, d: int) {
    (app, route) in l.routeBucket && l.routeBucket[(app, route)] in l.buckets
    && l.buckets[l.routeBucket[(app, route)]].remaining <= 0 && l.buckets[l.routeBucket[(app, route)]].resetAt >= d
  }

  lemma RefusesExactly(l: Limiter, app: string, route: Route, d: int)
    ensures Refuses(l, app, route, d) <==> GlobalUntil(l, app) >= d || Held(l, app, route, d)
  {
    assert AskStep(l, app, route, d - 1).1 <==> Until(l, app, route) <= d - 1;
  }

  // The 429 names a bucket, and no open window of that bucket resets before its wait is over.
  predicate KeepsWait(l: Limiter, o: Action)
    requires o.Observe?
  {
    var id := BucketId(o.app, o.response.bucket, o.route.major);
    if o.response.bucket == "" then Held(l, o.app, o.route, o.now + o.response.retryAfter)
    else !(id in l.buckets && o.now < l.buckets[id].resetAt < o.now + o.response.retryAfter)
  }

  // A later response resets the route's bucket earlier, or moves the route to a bucket that is not
  // empty until then.
  predicate Loosens(l: Limiter, a: Action, app: string, route: Route, d: int) {
    a.Observe? && a.response.bucket != "" && (app, route) in l.routeBucket && (
      var id := BucketId(a.app, a.response.bucket, a.route.major);
      var open := id in l.buckets && l.buckets[id].resetAt > a.now;
      if id == l.routeBucket[(app, route)] then a.now + ResetAfter(a.response) < d
      else
        a.app == app && a.route == route && (
          || (Remaining(a.response) > 0 && !(open && l.buckets[id].remaining <= 0))
          || a.now + ResetAfter(a.response) < d
          || (open && l.buckets[id].resetAt < d)))
  }

  lemma WaitStored(l: Limiter, o: Action)
    requires o.Observe? && Limited(o.response)
    ensures Held(Next(l, o), o.app, o.route, o.now + o.response.retryAfter) <==> KeepsWait(l, o)
  {}

  lemma HeldExactly(l: Limiter, a: Action, app: string, route: Route, d: int)
    requires Held(l, app, route, d) && (a.Observe? ==> a.now < d)
    ensures Held(Next(l, a), app, route, d) <==> !Loosens(l, a, app, route, d)
  {
    match a
    case Ask(_, _, _) =>
    case Observe(_, _, r, now) =>
      assert Remaining(r) >= 0;
  }

  lemma AfterSnoc(run: seq<Action>, a: Action)
    ensures After(run + [a]) == Next(After(run), a)
  {
    assert (run + [a])[..|run|] == run;
  }

  lemma AfterStep(front: seq<Action>, later: seq<Action>, k: nat)
    requires k < |later|
    ensures After(front + later[..k + 1]) == Next(After(front + later[..k]), later[k])
  {
    assert front + later[..k + 1] == (front + later[..k]) + [later[k]];
    AfterSnoc(front + later[..k], later[k]);
  }

  // In every run with a 429, as long as no global deadline covers its wait and no response is
  // stamped after it: requests on its route are refused all the time until the wait is over exactly
  // when the 429 was stored with it and no later response loosens it.
  lemma WaitRespectedExactly(before: seq<Action>, o: Action, later: seq<Action>)
    requires o.Observe? && Limited(o.response)
    requires var d := o.now + o.response.retryAfter;
      && (forall a :: a in later && a.Observe? ==> a.now < d)
      && forall k :: 0 <= k <= |later| ==> GlobalUntil(After(before + [o] + later[..k]), o.app) < d
    ensures var d := o.now + o.response.retryAfter;
      (forall k :: 0 <= k <= |later| ==> Refuses(After(before + [o] + later[..k]), o.app, o.route, d)) <==>
      KeepsWait(After(before), o) && forall k :: 0 <= k < |later| ==> !Loosens(After(before + [o] + later[..k]), later[k], o.app, o.route, d)
  {
    hide Next, After, Refuses, Held, KeepsWait, Loosens;
    var d := o.now + o.response.retryAfter;
    var front := before + [o];
    forall k | 0 <= k <= |later| ensures Refuses(After(front + later[..k]), o.app, o.route, d) <==> Held(After(front + later[..k]), o.app, o.route, d) {
      RefusesExactly(After(front + later[..k]), o.app, o.route, d);
    }
    AfterSnoc(before, o);
    WaitStored(After(before), o);
    assert front + later[..0] == front;
    forall k | 0 <= k < |later| && Held(After(front + later[..k]), o.app, o.route, d)
      ensures Held(After(front + later[..k + 1]), o.app, o.route, d) <==> !Loosens(After(front + later[..k]), later[k], o.app, o.route, d)
    {
      AfterStep(front, later, k);
      assert later[k] in later;
      HeldExactly(After(front + later[..k]), later[k], o.app, o.route, d);
    }
    if Held(After(front + later[..0]), o.app, o.route, d) { HeldAlong(front, later, |later|, o.app, o.route, d); }
    if forall k :: 0 <= k <= |later| ==> Refuses(After(front + later[..k]), o.app, o.route, d) {
      forall k | 0 <= k < |later| ensures !Loosens(After(front + later[..k]), later[k], o.app, o.route, d) {
        assert Refuses(After(front + later[..k]), o.app, o.route, d) && Refuses(After(front + later[..k + 1]), o.app, o.route, d);
      }
      assert Refuses(After(front + later[..0]), o.app, o.route, d);
    }
  }

  lemma {:induction false} HeldAlong(front: seq<Action>, later: seq<Action>, n: nat, app: string, route: Route, d: int)
    requires n <= |later| && Held(After(front + later[..0]), app, route, d)
    requires forall k :: 0 <= k < |later| && Held(After(front + later[..k]), app, route, d) ==>
      (Held(After(front + later[..k + 1]), app, route, d) <==> !Loosens(After(front + later[..k]), later[k], app, route, d))
    ensures (forall k :: 0 <= k < n ==> !Loosens(After(front + later[..k]), later[k], app, route, d)) ==>
      forall k :: 0 <= k <= n ==> Held(After(front + later[..k]), app, route, d)
  {
    hide Next, After, Held, Loosens;
    if n > 0 {
      HeldAlong(front, later, n - 1, app, route, d);
      if forall k :: 0 <= k < n ==> !Loosens(After(front + later[..k]), later[k], app, route, d) {
        var m := n - 1;
        assert Held(After(front + later[..m]), app, route, d) && !Loosens(After(front + later[..m]), later[m], app, route, d);
        assert Held(After(front + later[..m + 1]), app, route, d);
      }
    }
  }

  // ---- waits that are not respected ----------------------------------------------------------------------

  const ROUTE: Route := Route("/channels", "1")

  function TooMany(wait: int, bucket: string): Response { Response(true, wait, false, false, false, None, None, bucket) }

  function Ordinary(resetAfter: int, remaining: int, bucket: string): Response {
    Response(false, 0, false, false, false, Some(resetAfter), Some(remaining), bucket)
  }

  lemma TwoSteps(a: Action, b: Action)
    ensures After([a]) == Next(After([]), a) && After([a, b]) == Next(After([a]), b)
  {
    AfterSnoc([], a);
    AfterSnoc([a], b);
    assert [] + [a] == [a] && [a] + [b] == [a, b];
  }

  // An earlier window of the bucket is still open: a request at its reset is granted.
  lemma EarlierWindowGrants()
    ensures AskStep(After([Observe("app", ROUTE, Ordinary(10, 0, "b"), 1), Observe("app", ROUTE, TooMany(100, "b"), 2)]), "app", ROUTE, 11).1
  {
    TwoSteps(Observe("app", ROUTE, Ordinary(10, 0, "b"), 1), Observe("app", ROUTE, TooMany(100, "b"), 2));
  }

  // A later response of the bucket brings the reset nearer.
  lemma LaterResponseGrants()
    ensures AskStep(After([Observe("app", ROUTE, TooMany(100, "b"), 1), Observe("app", ROUTE, Ordinary(10, 0, "b"), 2)]), "app", ROUTE, 12).1
  {
    TwoSteps(Observe("app", ROUTE, TooMany(100, "b"), 1), Observe("app", ROUTE, Ordinary(10, 0, "b"), 2));
  }

  // A later response moves the route to another bucket.
  lemma MovedRouteGrants()
    ensures AskStep(After([Observe("app", ROUTE, TooMany(100, "b"), 1), Observe("app", ROUTE, Ordinary(10, 1, "c"), 2)]), "app", ROUTE, 2).1
  {
    TwoSteps(Observe("app", ROUTE, TooMany(100, "b"), 1), Observe("app", ROUTE, Ordinary(10, 1, "c"), 2));
  }

  // A 429 that names no bucket is not stored at all.
  lemma UnnamedWaitGrants()
    ensures AskStep(After([Observe("app", ROUTE, TooMany(100, ""), 1)]), "app", ROUTE, 1).1
  {
    AfterSnoc([], Observe("app", ROUTE, TooMany(100, ""), 1));
    assert [] + [Observe("app", ROUTE, TooMany(100, ""), 1)] == [Observe("app", ROUTE, TooMany(100, ""), 1)];
  }

  // ---- the limiter object --------------------------------------------------------------------------------

  class DiscordRateLimiter {
    var routeBucket: map<(string, Route), BucketId>
    var buckets: map<BucketId, Bucket>
    var globalUntil: map<string, int>

    ghost function Now(): Limiter
      reads this
    {
      Limiter(routeBucket, buckets, globalUntil)
    }

    // Every route leads to a known bucket.
    ghost predicate Valid()
      reads this
    {
      forall k :: k in routeBucket ==> routeBucket[k] in buckets
    }

    constructor ()
      ensures Valid() && Now() == After([])
    {
      routeBucket, buckets, globalUntil := map[], map[], map[];
    }

    method Ask(app: string, route: Route, now: int) returns (granted: bool)
      requires Valid()
      modifies this`buckets
      ensures Valid() && (Now(), granted) == AskStep(old(Now()), app, route, now)
    {
      var until := if app in globalUntil then globalUntil[app] else 0;
      var known := (app, route) in routeBucket;
      if known {
        var bucket := buckets[routeBucket[(app, route)]];
        if bucket.remaining <= 0 && bucket.resetAt > until { until := bucket.resetAt; }
      }
      if until > now { return false; }
      if known {
        var id := routeBucket[(app, route)];
        var bucket := buckets[id];
        if bucket.remaining > 0 { buckets := buckets[id := bucket.(remaining := bucket.remaining - 1)]; }
      }
      granted := true;
    }

    // One step of another request or response.
    method Perform(a: Action)
      requires Valid()
      modifies this
      ensures Valid() && Now() == Next(old(Now()), a)
    {
      match a
      case Ask(app, route, now) => var _ := Ask(app, route, now);
      case Observe(app, route, r, now) => Observe(app, route, r, now);
    }

    method PerformAll(others: seq<Action>)
      requires Valid()
      modifies this
      ensures Valid() && Now() == From(old(Now()), others)
    {
      assert others[..0] == [];
      for i := 0 to |others|
        invariant Valid() && Now() == From(old(Now()), others[..i])
      {
        assert others[..i + 1][..i] == others[..i];
        Perform(others[i]);
      }
      assert others[..|others|] == others;
    }

    // Asking until granted, at the instants the timer fires, with the steps of others between the
    // looks: none is granted before the limits of its moment allow it, and the first they allow is.
    method Wait(app: string, route: Route, others: seq<seq<Action>>, instants: seq<int>) returns (k: nat)
      requires Valid() && |others| == |instants|
      modifies this
      ensures Valid() && k <= |instants|
      ensures forall i :: 0 <= i < k ==> Until(Between(old(Now()), others[..i + 1]), app, route) > instants[i]
      ensures k < |instants| ==> var l := Between(old(Now()), others[..k + 1]);
        Until(l, app, route) <= instants[k] && Now() == AskStep(l, app, route, instants[k]).0
      ensures k == |instants| ==> Now() == Between(old(Now()), others)
    {
      k := 0;
      assert others[..0] == [];
      while k < |instants|
        invariant k <= |instants| && Valid() && Now() == Between(old(Now()), others[..k])
        invariant forall i :: 0 <= i < k ==> Until(Between(old(Now()), others[..i + 1]), app, route) > instants[i]
      {
        assert others[..k + 1][..k] == others[..k];
        PerformAll(others[k]);
        var granted := Ask(app, route, instants[k]);
        if granted { return; }
        k := k + 1;
      }
      assert others[..k] == others;
    }

    // The reset, the count and the scope a response announces.
    method Headers(r: Response) returns (resetAfter: int, remaining: int, global: bool)
      ensures resetAfter == ResetAfter(r) && remaining == Remaining(r) && global == IsGlobal(r)
    {
      resetAfter := if r.resetAfter.Some? then r.resetAfter.value else 0;
      if resetAfter < 0 || resetAfter > MAX_RESET { resetAfter := 0; }
      remaining := if r.remaining.Some? && r.remaining.value >= 0 then r.remaining.value else 0;
      global := r.global || r.scopeGlobal;
      if r.tooMany && r.retryAfter > 0 {
        resetAfter, remaining := r.retryAfter, 0;
        if r.headerGlobal { global := true; }
      }
    }

    method Observe(app: string, route: Route, r: Response, now: int)
      requires Valid()
      modifies this
      ensures Valid() && Now() == ObserveStep(old(Now()), app, route, r, now)
    {
      hide ResetAfter, Remaining, IsGlobal;
      var resetAfter, remaining, global := Headers(r);
      var resetAt := now + resetAfter;
      if global && resetAt > (if app in globalUntil then globalUntil[app] else 0) { globalUntil := globalUntil[app := resetAt]; }
      if r.bucket == "" { return; }
      var id := BucketId(app, r.bucket, route.major);
      routeBucket := routeBucket[(app, route) := id];
      if id in buckets && buckets[id].resetAt > now {
        if buckets[id].resetAt < resetAt { resetAt := buckets[id].resetAt; }
        if buckets[id].remaining < remaining { remaining := buckets[id].remaining; }
      }
      buckets := buckets[id := Bucket(remaining, resetAt)];
    }
  }
}
