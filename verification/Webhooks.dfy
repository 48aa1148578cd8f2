/** Webhook deliveries: the table, the statements that change it, and the dispatcher that drains it.
    One dispatcher works through batches while other goroutines insert deliveries, so the system is a
    state machine whose steps are single statements and the two ends of each POST. */
module Webhooks {
  import opened Common

  type Id = string
  type Time = int // microseconds, the resolution of timestamptz

  const MINUTE: Time := 60_000_000
  const BATCH_LIMIT: nat := 50
  const MAX_ATTEMPTS: nat := 5

  datatype Row = Row(attempts: int, nextRetry: Time, delivered: bool, statusCode: Option<int>, response: Option<string>)

  /** A fetched row: the dispatcher works from the attempts it read, not from the table. */
  datatype Claim = Claim(id: Id, attempts: int)

  datatype Result = InFlight | Failed(at: Time) | Succeeded(at: Time)

  datatype Post = Post(start: Time, result: Result)

  /** `order` and `posts` are history: the ids in the order of insertion and every POST made for each. */
  datatype State = State(
    rows: map<Id, Row>, batch: seq<Claim>, posting: bool, clock: Time, order: seq<Id>, posts: map<Id, seq<Post>>)

  /** 1 << n */
  function Pow2(n: nat): (p: nat)
    ensures p >= 1
  {
    if n == 0 then 1 else 2 * Pow2(n - 1)
  }

  predicate Pending(r: Row) {
    !r.delivered && r.attempts < MAX_ATTEMPTS
  }

  predicate Due(r: Row, now: Time) {
    Pending(r) && r.nextRetry <= now
  }

  function Ids(claims: seq<Claim>): set<Id> {
    set c | c in claims :: c.id
  }

  predicate DistinctIds(claims: seq<Claim>) {
    forall i, j | 0 <= i < j < |claims| :: claims[i].id != claims[j].id
  }

  /** What the pending query may return: due rows by next_retry, at most `limit`, ties in any order. */
  ghost predicate ValidBatch(rows: map<Id, Row>, now: Time, limit: nat, claims: seq<Claim>) {
    && |claims| <= limit
    && DistinctIds(claims)
    && (forall c | c in claims :: c.id in rows && Due(rows[c.id], now) && c.attempts == rows[c.id].attempts)
    && (forall i, j | 0 <= i < j < |claims| :: rows[claims[i].id].nextRetry <= rows[claims[j].id].nextRetry)
    && (forall id | id in rows && Due(rows[id], now) && id !in Ids(claims) ::
          |claims| == limit && forall c | c in claims :: rows[c.id].nextRetry <= rows[id].nextRetry)
  }

  // ---------- Statements ----------

  function NewRow(now: Time): Row {
    Row(0, now, false, None, None)
  }

  function Delivered(r: Row): Row {
    r.(delivered := true, statusCode := Some(200), response := None, attempts := r.attempts + 1)
  }

  function Retried(r: Row, error: string, nextRetry: Time): Row {
    r.(attempts := r.attempts + 1, statusCode := None, response := Some(error), nextRetry := nextRetry)
  }

  function Backoff(nextAttempt: nat): Time {
    Pow2(nextAttempt) * MINUTE
  }

  // ---------- Steps ----------

  datatype Step =
    | Insert(id: Id, now: Time)
    | Fetch(claims: seq<Claim>, now: Time)
    | StartPost(now: Time)
    | FinishPost(ok: bool, error: string, now: Time)

  ghost predicate Enabled(s: State, step: Step) {
    && s.clock <= step.now
    && match step
       case Insert(id, now) => id !in s.rows && id !in s.posts
       case Fetch(claims, now) => s.batch == [] && ValidBatch(s.rows, now, BATCH_LIMIT, claims)
       case StartPost(now) => s.batch != [] && !s.posting && s.batch[0].id in s.posts
       case FinishPost(_, _, now) =>
         && s.batch != [] && s.posting && s.batch[0].attempts >= 0
         && s.batch[0].id in s.rows && s.batch[0].id in s.posts && s.posts[s.batch[0].id] != []
  }

  function Closed(ps: seq<Post>, result: Result): seq<Post>
    requires ps != []
  {
    ps[|ps| - 1 := ps[|ps| - 1].(result := result)]
  }

  function Next(s: State, step: Step): State
    requires Enabled(s, step)
  {
    match step
    case Insert(id, now) =>
      s.(rows := s.rows[id := NewRow(now)], clock := now, order := s.order + [id], posts := s.posts[id := []])
    case Fetch(claims, now) =>
      s.(batch := claims, clock := now)
    case StartPost(now) =>
      var id := s.batch[0].id;
      s.(posting := true, clock := now, posts := s.posts[id := s.posts[id] + [Post(now, InFlight)]])
    case FinishPost(ok, error, now) =>
      var claim := s.batch[0];
      var row := s.rows[claim.id];
      var row' := if ok then Delivered(row) else Retried(row, error, now + Backoff(claim.attempts + 1));
      var result := if ok then Succeeded(now) else Failed(now);
      s.(rows := s.rows[claim.id := row'], batch := s.batch[1..], posting := false, clock := now,
         posts := s.posts[claim.id := Closed(s.posts[claim.id], result)])
  }

  ghost predicate ValidRun(s: State, steps: seq<Step>)
    decreases |steps|
  {
    steps == [] || (Enabled(s, steps[0]) && ValidRun(Next(s, steps[0]), steps[1..]))
  }

  ghost function Run(s: State, steps: seq<Step>): State
    requires ValidRun(s, steps)
    decreases |steps|
  {
    if steps == [] then s else Run(Next(s, steps[0]), steps[1..])
  }

  const INITIAL: State := State(map[], [], false, 0, [], map[])

  // ---------- The invariant ----------

  predicate InFlightFor(s: State, id: Id) {
    s.posting && s.batch != [] && s.batch[0].id == id
  }

  /** The POSTs of one delivery agree with its row. */
  predicate Ledger(r: Row, ps: seq<Post>, inFlight: bool, clock: Time) {
    && 0 <= r.attempts <= MAX_ATTEMPTS
    && |ps| == r.attempts + (if inFlight then 1 else 0)
    && (inFlight ==> Pending(r) && ps[|ps| - 1].result == InFlight)
    && (forall i | 0 <= i < r.attempts :: ps[i].result ==
          if r.delivered && i == r.attempts - 1 then Succeeded(FinishTime(ps[i])) else Failed(FinishTime(ps[i])))
    && (forall i | 0 <= i < |ps| :: ps[i].start <= FinishTime(ps[i]) <= clock)
    && (forall i | 0 < i < |ps| :: FinishTime(ps[i - 1]) + Backoff(i) <= ps[i].start)
    && (r.delivered ==> r.attempts > 0)
    && (!r.delivered && r.attempts > 0 ==> r.nextRetry == FinishTime(ps[r.attempts - 1]) + Backoff(r.attempts))
    && (r.attempts == 0 ==> r.nextRetry <= clock)
    && (r.delivered <==> r.statusCode == Some(200))
    && (r.response.Some? <==> !r.delivered && r.attempts > 0)
  }

  function FinishTime(p: Post): Time {
    if p.result.InFlight? then p.start else p.result.at
  }

  ghost predicate Inv(s: State) {
    && s.rows.Keys == s.posts.Keys == (set id | id in s.order)
    && (forall i, j | 0 <= i < j < |s.order| :: s.order[i] != s.order[j])
    && (forall id | id in s.rows :: Ledger(s.rows[id], s.posts[id], InFlightFor(s, id), s.clock))
    && (s.posting ==> s.batch != [])
    && DistinctIds(s.batch)
    && (forall c | c in s.batch ::
          c.id in s.rows && Due(s.rows[c.id], s.clock) && c.attempts == s.rows[c.id].attempts)
  }
}
