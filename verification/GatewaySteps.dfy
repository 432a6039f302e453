// The Discord gateway session as a step system: every critical section is one step on the state
// that its mutex guards.
module GatewaySteps {

  import opened Wrappers

  const CHUNK_REQUEST_TTL: int := 600_000
  const FULL_LIST_INTERVAL: int := 30_000
  const EVENT_WINDOW: int := 60_000
  const EVENT_LIMIT: nat := 110
  const PENDING_LIMIT: nat := 64
  const AGGREGATE_LIMIT: int := 0x200_0000
  const MAX_CHUNKS: nat := 4096

  // A raw JSON value.
  type Raw = string

  datatype Part = Part(members: seq<Raw>, notFound: seq<Raw>, presences: seq<Raw>)

  function TextBytes(rs: seq<Raw>): nat {
    if rs == [] then 0 else TextBytes(rs[..|rs| - 1]) + |rs[|rs| - 1]|
  }

  function PartBytes(p: Part): nat {
    TextBytes(p.members) + TextBytes(p.notFound) + TextBytes(p.presences) + 64
  }

  // A pending request. The id stands for the identity of the object.
  datatype Request = Request(id: nat, guild: string, chunkCount: nat, chunks: map<nat, Part>, bytes: nat, createdAt: int)

  datatype Reason = SessionEnded | Timeout | MetadataMismatch | AggregateExceeded | RateLimited(retryAfter: real) | EncodingFailed

  // A failure record waiting to be taken; the id is the request's.
  datatype Failure = Failure(id: nat, guild: string, nonce: string, reason: Reason)

  // A completed query, whose text is encoded outside the critical section.
  datatype Result = Result(id: nat, guild: string, nonce: string, content: Part)

  datatype Socket = Absent | Open | Closed

  // What the mutex guards.
  datatype Session = Session(
    socket: Socket, guildMembers: bool, guildPresences: bool,
    chunks: map<string, Request>, chunkBytes: int, fullListAt: map<string, int>, outboundEvents: seq<int>, failures: seq<Failure>)

  // What happened so far: the ids handed out, the results being encoded, and what became of every
  // request. `sending` is the request whose frame is on its way under the session lock.
  datatype Book = Book(
    nextId: nat, completing: seq<Result>, reported: multiset<nat>, unsent: multiset<nat>, lost: multiset<nat>, sending: Option<(string, nat)>)

  datatype State = State(session: Session, book: Book)

  // ---- requests come and go ------------------------------------------------------------------------

  // Removing a request returns its bytes; a negative count would be clamped.
  function Remove(s: Session, nonce: string): Session {
    if nonce in s.chunks then
      var left := s.chunkBytes - s.chunks[nonce].bytes;
      s.(chunks := s.chunks - {nonce}, chunkBytes := if left < 0 then 0 else left)
    else s
  }

  function Fail(s: Session, nonce: string, reason: Reason): Session
    requires nonce in s.chunks
  {
    var r := s.chunks[nonce];
    Remove(s.(failures := s.failures + [Failure(r.id, r.guild, nonce, reason)]), nonce)
  }

  function FailAll(s: Session, nonces: seq<string>, reason: Reason): Session {
    if nonces == [] then s
    else
      var before := FailAll(s, nonces[..|nonces| - 1], reason);
      var last := nonces[|nonces| - 1];
      if last in before.chunks then Fail(before, last, reason) else before
  }

  predicate Overdue(r: Request, now: int) { now - r.createdAt > CHUNK_REQUEST_TTL }

  // Some order of the overdue requests, each once: the order a map is walked in is not fixed.
  predicate Enumerates(order: seq<string>, names: set<string>) {
    (forall i, j :: 0 <= i < j < |order| ==> order[i] != order[j]) && (forall n :: n in order ==> n in names) && (forall n :: n in names ==> n in order)
  }

  function OverdueIn(s: Session, now: int): set<string> { set n | n in s.chunks && Overdue(s.chunks[n], now) }

  function Expire(s: Session, order: seq<string>): Session { FailAll(s, order, Timeout) }

  // ---- the steps --------------------------------------------------------------------------------------

  function Within(ts: seq<int>, now: int): seq<int> {
    if ts == [] then []
    else Within(ts[..|ts| - 1], now) + (if now - ts[|ts| - 1] < EVENT_WINDOW then [ts[|ts| - 1]] else [])
  }

  function Recent(m: map<string, int>, now: int): map<string, int> {
    map g | g in m && now - m[g] < FULL_LIST_INTERVAL :: m[g]
  }

  datatype Refusal = NoSession | Active | MissingIntent | FullListTooSoon | EventLimit | NonceInUse | TooManyPending

  datatype Answer = Refused(why: Refusal) | Accepted

  ghost function PendingIds(m: map<string, Request>): multiset<nat> {
    if m == map[] then multiset{}
    else
      var k :| k in m;
      PendingIds(m - {k}) + multiset{m[k].id}
  }

  function FailureIds(fs: seq<Failure>): multiset<nat> {
    if fs == [] then multiset{} else FailureIds(fs[..|fs| - 1]) + multiset{fs[|fs| - 1].id}
  }

  function CompletingIds(rs: seq<Result>): multiset<nat> {
    if rs == [] then multiset{} else CompletingIds(rs[..|rs| - 1]) + multiset{rs[|rs| - 1].id}
  }

  // A new session drops whatever an old one left behind.
  ghost function BindStep(s: State, members: bool, presences: bool, now: int): (State, Answer) {
    if s.session.socket == Open then (s, Refused(Active))
    else
      (State(Session(Open, members, presences, map[], 0, s.session.fullListAt, [now], []),
             s.book.(lost := s.book.lost + PendingIds(s.session.chunks) + FailureIds(s.session.failures))),
       Accepted)
  }

  // Ending the session reports what is still queued and what is still pending.
  ghost function UnbindStep(s: State): State {
    State(Session(Absent, false, false, map[], 0, s.session.fullListAt, [], []),
          s.book.(reported := s.book.reported + FailureIds(s.session.failures) + PendingIds(s.session.chunks)))
  }

  // What unbinding returns: the queued records, then one for every pending request.
  function EndRecords(m: map<string, Request>, order: seq<string>): seq<Failure>
    requires forall n :: n in order ==> n in m
  {
    if order == [] then []
    else
      var n := order[|order| - 1];
      EndRecords(m, order[..|order| - 1]) + [Failure(m[n].id, m[n].guild, n, SessionEnded)]
  }

  // An update that expects no answer.
  function SendStep(s: State, now: int): (State, Answer) {
    if s.session.socket != Open then (s, Refused(NoSession))
    else
      var active := Within(s.session.outboundEvents, now);
      if |active| >= EVENT_LIMIT then (s.(session := s.session.(outboundEvents := active)), Refused(EventLimit))
      else (s.(session := s.session.(outboundEvents := active + [now])), Accepted)
  }

  // The part of a member request before its frame is written. The session lock is then held until
  // the frame is.
  function RegisterStep(s: State, guild: string, nonce: string, all: bool, presences: bool, now: int, order: seq<string>): (State, Answer) {
    var e := Expire(s.session, order);
    if e.socket != Open then (s.(session := e), Refused(NoSession))
    else if all && !e.guildMembers then (s.(session := e), Refused(MissingIntent))
    else if presences && !e.guildPresences then (s.(session := e), Refused(MissingIntent))
    else
      var f := e.(fullListAt := Recent(e.fullListAt, now));
      if all && guild in f.fullListAt then (s.(session := f), Refused(FullListTooSoon))
      else
        var active := Within(f.outboundEvents, now);
        var g := f.(outboundEvents := active);
        if |active| >= EVENT_LIMIT then (s.(session := g), Refused(EventLimit))
        else if nonce in g.chunks then (s.(session := g), Refused(NonceInUse))
        else if |g.chunks| >= PENDING_LIMIT then (s.(session := g), Refused(TooManyPending))
        else
          (State(g.(chunks := g.chunks[nonce := Request(s.book.nextId, guild, 0, map[], 0, now)],
                    outboundEvents := active + [now],
                    fullListAt := if all then g.fullListAt[guild := now] else g.fullListAt),
                 s.book.(nextId := s.book.nextId + 1, sending := Some((nonce, s.book.nextId)))),
           Accepted)
  }

  // The frame was written or was not; in the second case the request goes, if it is still the one.
  function SentStep(s: State, ok: bool): State
    requires s.book.sending.Some?
  {
    var (nonce, id) := s.book.sending.value;
    var b := s.book.(sending := None);
    if !ok && nonce in s.session.chunks && s.session.chunks[nonce].id == id then
      State(Remove(s.session, nonce), b.(unsent := b.unsent + multiset{id}))
    else s.(book := b)
  }

  datatype ChunkAnswer = Ignored | Mismatch | TooLarge | Incomplete | Complete(result: Result)

  // The parts of a request in the order of their index.
  function Assemble(chunks: map<nat, Part>, n: nat): Part
    requires forall i :: 0 <= i < n ==> i in chunks
  {
    if n == 0 then Part([], [], [])
    else
      var p := Assemble(chunks, n - 1);
      var q := chunks[n - 1];
      Part(p.members + q.members, p.notFound + q.notFound, p.presences + q.presences)
  }

  // A chunk whose metadata is well formed.
  function ChunkStep(s: State, guild: string, nonce: string, index: nat, count: nat, part: Part, order: seq<string>): (State, ChunkAnswer)
    requires index < count <= MAX_CHUNKS
  {
    var e := Expire(s.session, order);
    if nonce !in e.chunks then (s.(session := e), Ignored)
    else
      var r := e.chunks[nonce];
      if r.guild != guild || (r.chunkCount != 0 && r.chunkCount != count) then (s.(session := Fail(e, nonce, MetadataMismatch)), Mismatch)
      else if index in r.chunks then (s.(session := e), Ignored)
      else if r.bytes + PartBytes(part) > AGGREGATE_LIMIT || e.chunkBytes + PartBytes(part) > AGGREGATE_LIMIT then
        (s.(session := Fail(e, nonce, AggregateExceeded)), TooLarge)
      else
        var q := Request(r.id, r.guild, count, r.chunks[index := part], r.bytes + PartBytes(part), r.createdAt);
        var g := e.(chunks := e.chunks[nonce := q], chunkBytes := e.chunkBytes + PartBytes(part));
        if |q.chunks| != count then (s.(session := g), Incomplete)
        else if exists i :: 0 <= i < count && i !in q.chunks then (s.(session := g), Incomplete)
        else
          var result := Result(q.id, q.guild, nonce, Assemble(q.chunks, count));
          (State(Remove(g, nonce), s.book.(completing := s.book.completing + [result])), Complete(result))
  }

  // A completed result is returned, or fails to be encoded and is recorded as a failure.
  function EncodedStep(s: State, k: nat, failure: Option<Reason>): State
    requires k < |s.book.completing|
  {
    var r := s.book.completing[k];
    var b := s.book.(completing := s.book.completing[..k] + s.book.completing[k + 1..]);
    match failure
    case None => s.(book := b.(reported := b.reported + multiset{r.id}))
    case Some(reason) => State(s.session.(failures := s.session.failures + [Failure(r.id, r.guild, r.nonce, reason)]), b)
  }

  function RateLimitStep(s: State, guild: string, nonce: string, retryAfter: real, order: seq<string>): State {
    var e := Expire(s.session, order);
    if nonce !in e.chunks || e.chunks[nonce].guild != guild then s.(session := e) else s.(session := Fail(e, nonce, RateLimited(retryAfter)))
  }

  // Taking the failure records.
  function TakeStep(s: State, order: seq<string>): (State, seq<Failure>) {
    var e := Expire(s.session, order);
    (State(e.(failures := []), s.book.(reported := s.book.reported + FailureIds(e.failures))), e.failures)
  }

  // ---- runs -------------------------------------------------------------------------------------------

  datatype Action =
    | Bind(members: bool, presences: bool, now: int)
    | Unbind
    | Send(now: int)
    | Register(guild: string, nonce: string, all: bool, presences: bool, now: int, order: seq<string>)
    | Sent(ok: bool)
    | Chunk(guild: string, nonce: string, index: nat, count: nat, part: Part, now: int, order: seq<string>)
    | Encoded(k: nat, failure: Option<Reason>)
    | RateLimit(guild: string, nonce: string, retryAfter: real, now: int, order: seq<string>)
    | Take(now: int, order: seq<string>)
    | Close

  function Order(a: Action): seq<string> {
    match a
    case Register(_, _, _, _, _, order) => order
    case Chunk(_, _, _, _, _, _, order) => order
    case RateLimit(_, _, _, _, order) => order
    case Take(_, order) => order
    case _ => []
  }

  function Time(a: Action): Option<int> {
    match a
    case Bind(_, _, now) => Some(now)
    case Send(now) => Some(now)
    case Register(_, _, _, _, now, _) => Some(now)
    case Chunk(_, _, _, _, _, now, _) => Some(now)
    case RateLimit(_, _, _, now, _) => Some(now)
    case Take(now, _) => Some(now)
    case _ => None
  }

  predicate Expires(a: Action) { a.Register? || a.Chunk? || a.RateLimit? || a.Take? }

  // A step that can be taken: session operations wait for the session lock, and the overdue
  // requests are walked in some order.
  predicate Enabled(s: State, a: Action) {
    && (a.Bind? || a.Unbind? || a.Send? || a.Register? ==> s.book.sending.None?)
    && (a.Sent? ==> s.book.sending.Some?)
    && (a.Chunk? ==> a.index < a.count <= MAX_CHUNKS)
    && (a.Encoded? ==> a.k < |s.book.completing| && (a.failure.Some? ==> a.failure.value == EncodingFailed || a.failure.value == AggregateExceeded))
    && (Expires(a) ==> Enumerates(Order(a), OverdueIn(s.session, Time(a).value)))
  }

  ghost function Next(s: State, a: Action): State
    requires Enabled(s, a)
  {
    match a
    case Bind(m, p, now) => BindStep(s, m, p, now).0
    case Unbind => UnbindStep(s)
    case Send(now) => SendStep(s, now).0
    case Register(g, n, all, p, now, order) => RegisterStep(s, g, n, all, p, now, order).0
    case Sent(ok) => SentStep(s, ok)
    case Chunk(g, n, i, c, part, _, order) => ChunkStep(s, g, n, i, c, part, order).0
    case Encoded(k, f) => EncodedStep(s, k, f)
    case RateLimit(g, n, retry, _, order) => RateLimitStep(s, g, n, retry, order)
    case Take(_, order) => TakeStep(s, order).0
    case Close => if s.session.socket == Open then s.(session := s.session.(socket := Closed)) else s
  }

  function Start(): State {
    State(Session(Absent, false, false, map[], 0, map[], [], []), Book(0, [], multiset{}, multiset{}, multiset{}, None))
  }
}
