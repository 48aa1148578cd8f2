/** Whole-run laws of webhook delivery. */
module WebhookLaws {
  import opened Common
  import opened Webhooks

  // ---------- Every step keeps the invariant ----------

  lemma LedgerAges(r: Row, ps: seq<Post>, inFlight: bool, clock: Time, later: Time)
    requires Ledger(r, ps, inFlight, clock) && clock <= later
    ensures Ledger(r, ps, inFlight, later)
  {
  }

  lemma LedgerOpens(now: Time)
    ensures Ledger(NewRow(now), [], false, now)
  {
  }

  lemma LedgerStarts(r: Row, ps: seq<Post>, clock: Time, now: Time)
    requires Ledger(r, ps, false, clock) && Due(r, clock) && clock <= now
    ensures Ledger(r, ps + [Post(now, InFlight)], true, now)
  {
    hide Backoff;
  }

  lemma LedgerSucceeds(r: Row, ps: seq<Post>, clock: Time, now: Time)
    requires Ledger(r, ps, true, clock) && clock <= now
    ensures Ledger(Delivered(r), Closed(ps, Succeeded(now)), false, now)
  {
    hide Backoff;
    var ps' := Closed(ps, Succeeded(now));
    assert forall i | 0 <= i < r.attempts :: ps'[i] == ps[i];
  }

  lemma LedgerFails(r: Row, ps: seq<Post>, clock: Time, now: Time, error: string)
    requires Ledger(r, ps, true, clock) && clock <= now
    ensures Ledger(Retried(r, error, now + Backoff(r.attempts + 1)), Closed(ps, Failed(now)), false, now)
  {
    hide Backoff;
    var ps' := Closed(ps, Failed(now));
    assert forall i | 0 <= i < r.attempts :: ps'[i] == ps[i];
  }

  lemma PostedIdDiffers(s: State, c: Claim)
    requires s.batch != [] && DistinctIds(s.batch) && c in s.batch[1..]
    ensures c.id != s.batch[0].id && c in s.batch
  {
    var i :| 0 <= i < |s.batch[1..]| && s.batch[1..][i] == c;
    assert s.batch[i + 1] == c;
  }

  lemma FinishKeepsInv(s: State, step: Step)
    requires Inv(s) && Enabled(s, step) && step.FinishPost?
    ensures Inv(Next(s, step))
  {
    hide Ledger, Backoff;
    var s', id := Next(s, step), s.batch[0].id;
    assert s.batch[0] in s.batch;
    forall c | c in s'.batch
      ensures c.id in s'.rows && Due(s'.rows[c.id], s'.clock) && c.attempts == s'.rows[c.id].attempts
    {
      PostedIdDiffers(s, c);
    }
    forall k | k in s'.rows
      ensures Ledger(s'.rows[k], s'.posts[k], InFlightFor(s', k), s'.clock)
    {
      assert Ledger(s.rows[k], s.posts[k], InFlightFor(s, k), s.clock);
      if k != id {
        LedgerAges(s.rows[k], s.posts[k], false, s.clock, s'.clock);
      } else if step.ok {
        LedgerSucceeds(s.rows[k], s.posts[k], s.clock, s'.clock);
      } else {
        LedgerFails(s.rows[k], s.posts[k], s.clock, s'.clock, step.error);
      }
    }
  }

  lemma StartKeepsInv(s: State, step: Step)
    requires Inv(s) && Enabled(s, step) && step.StartPost?
    ensures Inv(Next(s, step))
  {
    hide Ledger;
    var s', id := Next(s, step), s.batch[0].id;
    assert s.batch[0] in s.batch;
    forall k | k in s'.rows
      ensures Ledger(s'.rows[k], s'.posts[k], InFlightFor(s', k), s'.clock)
    {
      assert Ledger(s.rows[k], s.posts[k], false, s.clock);
      if k == id {
        LedgerStarts(s.rows[k], s.posts[k], s.clock, s'.clock);
      } else {
        LedgerAges(s.rows[k], s.posts[k], false, s.clock, s'.clock);
      }
    }
  }

  lemma InsertKeepsInv(s: State, step: Step)
    requires Inv(s) && Enabled(s, step) && step.Insert?
    ensures Inv(Next(s, step))
  {
    hide Ledger;
    var s' := Next(s, step);
    assert step.id !in s.order;
    forall c | c in s.batch
      ensures c.id != step.id
    {
    }
    forall k | k in s'.rows
      ensures Ledger(s'.rows[k], s'.posts[k], InFlightFor(s', k), s'.clock)
    {
      if k == step.id {
        if s.batch != [] {
          assert s.batch[0] in s.batch;
        }
        LedgerOpens(step.now);
      } else {
        LedgerAges(s.rows[k], s.posts[k], InFlightFor(s, k), s.clock, s'.clock);
      }
    }
  }

  lemma FetchKeepsInv(s: State, step: Step)
    requires Inv(s) && Enabled(s, step) && step.Fetch?
    ensures Inv(Next(s, step))
  {
    hide Ledger;
    forall k | k in s.rows
      ensures Ledger(s.rows[k], s.posts[k], false, step.now)
    {
      assert !InFlightFor(s, k);
      LedgerAges(s.rows[k], s.posts[k], false, s.clock, step.now);
    }
  }

  lemma StepKeepsInv(s: State, step: Step)
    requires Inv(s) && Enabled(s, step)
    ensures Inv(Next(s, step))
  {
    match step
    case Insert(_, _) => InsertKeepsInv(s, step);
    case Fetch(_, _) => FetchKeepsInv(s, step);
    case StartPost(_) => StartKeepsInv(s, step);
    case FinishPost(_, _, _) => FinishKeepsInv(s, step);
  }

  lemma {:induction false} RunKeepsInv(s: State, steps: seq<Step>)
    requires Inv(s) && ValidRun(s, steps)
    ensures Inv(Run(s, steps))
    decreases |steps|
  {
    if steps != [] {
      StepKeepsInv(s, steps[0]);
      RunKeepsInv(Next(s, steps[0]), steps[1..]);
    }
  }

  // ---------- The delivery ledger ----------

  function Successes(ps: seq<Post>): nat {
    if ps == [] then 0 else Successes(ps[..|ps| - 1]) + if ps[|ps| - 1].result.Succeeded? then 1 else 0
  }

  lemma {:induction false} NoSuccesses(ps: seq<Post>)
    requires forall i | 0 <= i < |ps| :: !ps[i].result.Succeeded?
    ensures Successes(ps) == 0
  {
    if ps != [] {
      NoSuccesses(ps[..|ps| - 1]);
    }
  }

  /** In every reachable state: a row's attempts count its POSTs (one less while one is in flight), at most
      five are ever made, a delivered row's last POST is its only success and an undelivered row has none, and
      every fetched row is still undelivered with the attempts that were read at the start of the batch. */
  lemma DeliveryLedger(steps: seq<Step>, id: Id)
    requires ValidRun(INITIAL, steps) && id in Run(INITIAL, steps).rows
    ensures var s := Run(INITIAL, steps);
            && id in s.posts
            && |s.posts[id]| == s.rows[id].attempts + (if InFlightFor(s, id) then 1 else 0)
            && |s.posts[id]| <= 5
            && Successes(s.posts[id]) == (if s.rows[id].delivered then 1 else 0)
            && (s.rows[id].delivered ==> s.posts[id] != [] && s.posts[id][|s.posts[id]| - 1].result.Succeeded?)
            && forall c | c in s.batch && c.id == id :: !s.rows[id].delivered && c.attempts == s.rows[id].attempts < 5
  {
    hide Backoff;
    RunKeepsInv(INITIAL, steps);
    var s := Run(INITIAL, steps);
    var r, ps := s.rows[id], s.posts[id];
    assert Ledger(r, ps, InFlightFor(s, id), s.clock);
    if r.delivered {
      NoSuccesses(ps[..|ps| - 1]);
    } else {
      NoSuccesses(ps);
    }
  }

  lemma {:induction false} DeliveredStays(s: State, steps: seq<Step>, id: Id)
    requires Inv(s) && ValidRun(s, steps) && id in s.rows && s.rows[id].delivered
    ensures var s' := Run(s, steps);
            id in s'.rows && s'.rows[id] == s.rows[id] && id in s'.posts && s'.posts[id] == s.posts[id]
    decreases |steps|
  {
    hide Ledger, Backoff;
    if steps != [] {
      if s.batch != [] {
        assert s.batch[0] in s.batch;
      }
      StepKeepsInv(s, steps[0]);
      DeliveredStays(Next(s, steps[0]), steps[1..], id);
    }
  }

  /** In every run, a row once delivered is never POSTed or changed again, whatever happens later. */
  lemma DeliveredIsFinal(before: seq<Step>, later: seq<Step>, id: Id)
    requires ValidRun(INITIAL, before) && ValidRun(Run(INITIAL, before), later)
    requires id in Run(INITIAL, before).rows && Run(INITIAL, before).rows[id].delivered
    ensures var s := Run(INITIAL, before);
            var s' := Run(s, later);
            id in s.posts && id in s'.rows && s'.rows[id] == s.rows[id] && id in s'.posts && s'.posts[id] == s.posts[id]
  {
    hide Ledger;
    RunKeepsInv(INITIAL, before);
    DeliveredStays(Run(INITIAL, before), later, id);
  }

  // ---------- What each step does to the table ----------

  /** In every reachable state: an insert adds a row that is due at once, the end of a POST changes the row that was
      POSTed, marking it delivered or stamping it for later, and no step touches any other row. */
  lemma TableLaw(before: seq<Step>, step: Step, id: Id)
    requires ValidRun(INITIAL, before) && Enabled(Run(INITIAL, before), step)
    requires id in Next(Run(INITIAL, before), step).rows
    ensures var s := Run(INITIAL, before);
            var row := Next(s, step).rows[id];
            match step
            case Insert(added, now) => if id == added then row == Row(0, now, false, None, None) else id in s.rows && row == s.rows[id]
            case FinishPost(ok, error, now) =>
              id in s.rows &&
              (if id != s.batch[0].id then row == s.rows[id]
               else var was := s.rows[id];
                    && 0 <= was.attempts < 5
                    && row == if ok then Row(was.attempts + 1, was.nextRetry, true, Some(200), None)
                              else Row(was.attempts + 1, now + [2, 4, 8, 16, 32][was.attempts] * 60_000_000, false, None, Some(error)))
            case _ => id in s.rows && row == s.rows[id]
  {
    hide Ledger;
    RunKeepsInv(INITIAL, before);
    var s := Run(INITIAL, before);
    if step.FinishPost? {
      assert s.batch[0] in s.batch;
      LedgerBounds(s.rows[s.batch[0].id], s.posts[s.batch[0].id], InFlightFor(s, s.batch[0].id), s.clock);
      PowersOfTwo(s.batch[0].attempts + 1);
    }
  }

  // ---------- Backoff ----------

  lemma {:induction false} BackoffAccumulates(r: Row, ps: seq<Post>, inFlight: bool, clock: Time, j: nat, k: nat)
    requires Ledger(r, ps, inFlight, clock) && 1 <= j <= k <= |ps|
    ensures ps[k - 1].start - ps[j - 1].start >= (Pow2(k) - Pow2(j)) * MINUTE
    decreases k
  {
    if j < k {
      BackoffAccumulates(r, ps, inFlight, clock, j, k - 1);
      assert FinishTime(ps[k - 2]) + Backoff(k - 1) <= ps[k - 1].start;
      assert Pow2(k) == 2 * Pow2(k - 1);
    }
  }

  /** In every reachable state, attempts j < k of a delivery start at least 2^k - 2^j minutes apart. */
  lemma BackoffSpacing(steps: seq<Step>, id: Id, j: nat, k: nat)
    requires ValidRun(INITIAL, steps)
    requires id in Run(INITIAL, steps).posts
    requires 1 <= j < k <= |Run(INITIAL, steps).posts[id]|
    ensures var ps := Run(INITIAL, steps).posts[id];
            k <= 5 && ps[k - 1].start - ps[j - 1].start >= ([2, 4, 8, 16, 32][k - 1] - [2, 4, 8, 16, 32][j - 1]) * 60_000_000
  {
    hide Ledger;
    RunKeepsInv(INITIAL, steps);
    var s := Run(INITIAL, steps);
    assert Ledger(s.rows[id], s.posts[id], InFlightFor(s, id), s.clock);
    BackoffAccumulates(s.rows[id], s.posts[id], InFlightFor(s, id), s.clock, j, k);
    DeliveryLedger(steps, id);
    PowersOfTwo(j);
    PowersOfTwo(k);
  }

  /** In every reachable state, an undelivered row that has failed is next due 2^attempts minutes after its
      last failure, with an exponent of at most 5. */
  lemma RetryStamp(steps: seq<Step>, id: Id)
    requires ValidRun(INITIAL, steps) && id in Run(INITIAL, steps).rows
    requires var r := Run(INITIAL, steps).rows[id]; !r.delivered && r.attempts > 0
    ensures var s := Run(INITIAL, steps);
            var n := s.rows[id].attempts;
            && n <= 5 && id in s.posts && n <= |s.posts[id]|
            && s.posts[id][n - 1].result.Failed?
            && s.rows[id].nextRetry == s.posts[id][n - 1].result.at + [2, 4, 8, 16, 32][n - 1] * 60_000_000
  {
    hide Ledger;
    RunKeepsInv(INITIAL, steps);
    var s := Run(INITIAL, steps);
    LedgerStamp(s.rows[id], s.posts[id], InFlightFor(s, id), s.clock);
    PowersOfTwo(s.rows[id].attempts);
  }

  lemma PowersOfTwo(n: nat)
    requires 1 <= n <= 5
    ensures Pow2(n) == [2, 4, 8, 16, 32][n - 1]
  {
    assert Pow2(1) == 2 && Pow2(2) == 4 && Pow2(3) == 8 && Pow2(4) == 16 && Pow2(5) == 32;
  }

  lemma LedgerStamp(r: Row, ps: seq<Post>, inFlight: bool, clock: Time)
    requires Ledger(r, ps, inFlight, clock) && !r.delivered && r.attempts > 0
    ensures r.attempts <= 5 && r.attempts <= |ps| && ps[r.attempts - 1].result.Failed?
    ensures r.nextRetry == ps[r.attempts - 1].result.at + Pow2(r.attempts) * MINUTE
  {
  }

  // ---------- No starvation under the batch limit ----------

  /** Pending rows that the pending query may put before `x` and that are not already being worked on. */
  function Ahead(s: State, x: Id): set<Id>
    requires x in s.rows
  {
    set id | id in s.rows && id != x && Pending(s.rows[id]) && s.rows[id].nextRetry <= s.rows[x].nextRetry
             && id !in Ids(s.batch)
  }

  function Ticks(steps: seq<Step>): nat {
    if steps == [] then 0 else (if steps[0].Fetch? then 1 else 0) + Ticks(steps[1..])
  }

  predicate InsertsAfter(steps: seq<Step>, t: Time) {
    forall i | 0 <= i < |steps| && steps[i].Insert? :: t < steps[i].now
  }

  lemma {:induction false} IdsCount(claims: seq<Claim>)
    requires DistinctIds(claims)
    ensures |Ids(claims)| == |claims|
  {
    if claims != [] {
      var front, last := claims[..|claims| - 1], claims[|claims| - 1];
      IdsCount(front);
      assert Ids(claims) == Ids(front) + {last.id};
      assert last.id !in Ids(front);
    }
  }

  lemma {:induction false} PostsGrow(s: State, steps: seq<Step>, x: Id)
    requires Inv(s) && ValidRun(s, steps) && x in s.rows
    ensures var s' := Run(s, steps); x in s'.posts && |s.posts[x]| <= |s'.posts[x]|
    decreases |steps|
  {
    hide Ledger, Backoff;
    if steps != [] {
      StepKeepsInv(s, steps[0]);
      PostsGrow(Next(s, steps[0]), steps[1..], x);
    }
  }

  predicate Working(s: State, x: Id) {
    x in Ids(s.batch) && !InFlightFor(s, x)
  }

  /** A claimed row stays claimed until it is POSTed. */
  lemma {:induction false} ClaimedUntilPosted(s: State, steps: seq<Step>, x: Id)
    requires Inv(s) && ValidRun(s, steps) && x in s.rows && Working(s, x)
    requires x in Run(s, steps).posts && |Run(s, steps).posts[x]| == |s.posts[x]|
    ensures Run(s, steps).batch != []
    decreases |steps|
  {
    hide Ledger, Backoff;
    if steps != [] {
      var s1 := Next(s, steps[0]);
      StepKeepsInv(s, steps[0]);
      PostsGrow(s1, steps[1..], x);
      ClaimedUntilPosted(s1, steps[1..], x);
    }
  }

  /** Each tick that leaves `x` out takes a full batch from the rows ahead of it, and nothing joins them. */
  lemma AheadStep(s: State, step: Step, x: Id)
    requires Inv(s) && Enabled(s, step) && x in s.rows && x !in Ids(s.batch)
    requires Due(s.rows[x], s.clock) && x !in Ids(Next(s, step).batch)
    requires step.Insert? ==> s.rows[x].nextRetry < step.now
    ensures var s1 := Next(s, step);
            && x in s1.rows && s1.rows[x] == s.rows[x]
            && |Ahead(s1, x)| + (if step.Fetch? then BATCH_LIMIT else 0) <= |Ahead(s, x)|
  {
    hide Ledger, Backoff;
    var s1 := Next(s, step);
    match step
    case Insert(_, _) =>
      assert Ahead(s1, x) == Ahead(s, x);
    case StartPost(_) =>
      assert Ahead(s1, x) == Ahead(s, x);
    case FinishPost(ok, _, now) =>
      FinishLeavesAhead(s, step, x);
    case Fetch(claims, now) =>
      FetchTakesFromAhead(s, claims, now, x);
  }

  lemma FetchTakesFromAhead(s: State, claims: seq<Claim>, now: Time, x: Id)
    requires x in s.rows && s.batch == [] && ValidBatch(s.rows, now, BATCH_LIMIT, claims)
    requires Due(s.rows[x], now) && x !in Ids(claims)
    ensures |Ahead(s.(batch := claims, clock := now), x)| + BATCH_LIMIT == |Ahead(s, x)|
  {
    IdsCount(claims);
    forall id | id in Ids(claims)
      ensures id in Ahead(s, x)
    {
      var c :| c in claims && c.id == id;
    }
    assert Ahead(s.(batch := claims, clock := now), x) == Ahead(s, x) - Ids(claims);
  }

  lemma FinishLeavesAhead(s: State, step: Step, x: Id)
    requires Inv(s) && Enabled(s, step) && step.FinishPost? && x in s.rows && x !in Ids(s.batch)
    requires Due(s.rows[x], s.clock)
    ensures x in Next(s, step).rows && Next(s, step).rows[x] == s.rows[x]
    ensures Ahead(Next(s, step), x) == Ahead(s, x)
  {
    hide Ledger, Backoff;
    var s1, h := Next(s, step), s.batch[0].id;
    assert s.batch[0] in s.batch;
    assert h in Ids(s.batch);
    assert Ids(s.batch) == Ids(s1.batch) + {h} by {
      assert s.batch == [s.batch[0]] + s.batch[1..];
    }
    BackoffPositive(s.batch[0].attempts + 1);
    assert h !in Ahead(s1, x);
  }

  lemma BackoffPositive(n: nat)
    ensures Backoff(n) > 0
  {
  }

  lemma {:induction false} AheadRun(s: State, steps: seq<Step>, x: Id)
    requires Inv(s) && ValidRun(s, steps) && x in s.rows && x !in Ids(s.batch)
    requires Due(s.rows[x], s.clock) && InsertsAfter(steps, s.rows[x].nextRetry)
    requires Run(s, steps).batch == []
    requires x in Run(s, steps).posts && |Run(s, steps).posts[x]| == |s.posts[x]|
    ensures BATCH_LIMIT * Ticks(steps) <= |Ahead(s, x)|
    decreases |steps|
  {
    hide Ledger, Backoff;
    if steps != [] {
      var s1 := Next(s, steps[0]);
      StepKeepsInv(s, steps[0]);
      PostsGrow(s1, steps[1..], x);
      if x in Ids(s1.batch) {
        ClaimedUntilPosted(s1, steps[1..], x);
      } else {
        AheadStep(s, steps[0], x);
        AheadRun(s1, steps[1..], x);
      }
    }
  }

  lemma PostedInTime(s: State, steps: seq<Step>, x: Id)
    requires Inv(s) && s.batch == [] && x in s.rows && Due(s.rows[x], s.clock)
    requires ValidRun(s, steps) && InsertsAfter(steps, s.rows[x].nextRetry)
    requires Ticks(steps) >= |Ahead(s, x)| / BATCH_LIMIT + 1 && Run(s, steps).batch == []
    ensures x in Run(s, steps).posts && |Run(s, steps).posts[x]| > |s.posts[x]|
  {
    PostsGrow(s, steps, x);
    if |Run(s, steps).posts[x]| == |s.posts[x]| {
      AheadRun(s, steps, x);
    }
  }

  lemma {:induction false} TimeGoesOn(s: State, steps: seq<Step>, t: Time)
    requires ValidRun(s, steps) && t < s.clock
    ensures InsertsAfter(steps, t)
    decreases |steps|
  {
    if steps != [] {
      TimeGoesOn(Next(s, steps[0]), steps[1..], t);
      forall i | 0 <= i < |steps| && steps[i].Insert?
        ensures t < steps[i].now
      {
        if i > 0 {
          assert steps[i] == steps[1..][i - 1];
        }
      }
    }
  }

  /** No starvation: from any reachable state with the dispatcher idle and `m` other pending rows stamped no later
      than a due row `x`, floor(m / 50) + 1 completed ticks POST `x`, whatever the POSTs of others do and however
      many later-stamped deliveries arrive meanwhile. */
  lemma NoStarvation(before: seq<Step>, steps: seq<Step>, x: Id)
    requires ValidRun(INITIAL, before) && ValidRun(Run(INITIAL, before), steps)
    requires Run(INITIAL, before).batch == [] == Run(Run(INITIAL, before), steps).batch
    requires x in Run(INITIAL, before).rows && Due(Run(INITIAL, before).rows[x], Run(INITIAL, before).clock)
    requires InsertsAfter(steps, Run(INITIAL, before).rows[x].nextRetry)
    requires Ticks(steps) >= |Ahead(Run(INITIAL, before), x)| / 50 + 1
    ensures var s := Run(INITIAL, before);
            var s' := Run(s, steps);
            x in s.posts && x in s'.posts && |s'.posts[x]| > |s.posts[x]|
  {
    hide Ledger;
    RunKeepsInv(INITIAL, before);
    PostedInTime(Run(INITIAL, before), steps, x);
  }

  /** An overdue row is POSTed within floor(m / 50) + 1 ticks in every run, whatever is inserted. */
  lemma OverdueNeverStarves(before: seq<Step>, steps: seq<Step>, x: Id)
    requires ValidRun(INITIAL, before) && ValidRun(Run(INITIAL, before), steps)
    requires Run(INITIAL, before).batch == [] == Run(Run(INITIAL, before), steps).batch
    requires x in Run(INITIAL, before).rows && Pending(Run(INITIAL, before).rows[x])
    requires Run(INITIAL, before).rows[x].nextRetry < Run(INITIAL, before).clock
    requires Ticks(steps) >= |Ahead(Run(INITIAL, before), x)| / 50 + 1
    ensures var s := Run(INITIAL, before);
            var s' := Run(s, steps);
            x in s.posts && x in s'.posts && |s'.posts[x]| > |s.posts[x]|
  {
    TimeGoesOn(Run(INITIAL, before), steps, Run(INITIAL, before).rows[x].nextRetry);
    NoStarvation(before, steps, x);
  }

  // ---------- Quiescence ----------

  /** The attempts a row may still make. */
  function Left(r: Row): nat {
    if Pending(r) && 0 <= r.attempts then MAX_ATTEMPTS - r.attempts else 0
  }

  function SumLeft(rows: map<Id, Row>, ids: seq<Id>): nat
    requires forall id | id in ids :: id in rows
  {
    if ids == [] then 0
    else SumLeft(rows, ids[..|ids| - 1]) + Left(rows[ids[|ids| - 1]])
  }

  lemma {:induction false} SumLeftChange(rows: map<Id, Row>, ids: seq<Id>, id: Id, r: Row)
    requires forall k | k in ids :: k in rows
    requires forall i, j | 0 <= i < j < |ids| :: ids[i] != ids[j]
    ensures SumLeft(rows[id := r], ids)
            == SumLeft(rows, ids) + if id in ids then Left(r) - Left(rows[id]) else 0
  {
    if ids != [] {
      SumLeftChange(rows, ids[..|ids| - 1], id, r);
    }
  }

  lemma {:induction false} SumLeftCovers(rows: map<Id, Row>, ids: seq<Id>, id: Id)
    requires forall k | k in ids :: k in rows
    requires id in ids
    ensures SumLeft(rows, ids) >= Left(rows[id])
  {
    if id != ids[|ids| - 1] {
      SumLeftCovers(rows, ids[..|ids| - 1], id);
    }
  }

  /** The POSTs that can still be started. */
  ghost function Budget(s: State): int
    requires Inv(s)
  {
    SumLeft(s.rows, s.order) - if s.posting then 1 else 0
  }

  lemma BudgetCoversWaiting(s: State)
    requires Inv(s)
    ensures Budget(s) >= Waiting(s)
  {
    hide Backoff, Ledger;
    if s.batch != [] {
      var id := s.batch[0].id;
      assert s.batch[0] in s.batch;
      LedgerBounds(s.rows[id], s.posts[id], InFlightFor(s, id), s.clock);
      SumLeftCovers(s.rows, s.order, id);
    }
  }

  /** Every POST uses up budget, nothing but an insert adds to it, and an insert adds five. */
  lemma BudgetStep(s: State, step: Step)
    requires Inv(s) && Enabled(s, step) && Inv(Next(s, step))
    ensures Budget(Next(s, step)) + (if step.StartPost? then 1 else 0)
            <= Budget(s) + (if step.Insert? then MAX_ATTEMPTS else 0)
  {
    hide Ledger, Backoff, ValidBatch;
    match step
    case Insert(_, _) => BudgetInsert(s, step);
    case FinishPost(_, _, _) => BudgetFinish(s, step);
    case Fetch(_, _) =>
    case StartPost(_) =>
  }

  lemma SumLeftInserted(rows: map<Id, Row>, ids: seq<Id>, id: Id, now: Time)
    requires forall k | k in ids :: k in rows
    requires forall i, j | 0 <= i < j < |ids| :: ids[i] != ids[j]
    requires id !in ids
    ensures forall k | k in ids + [id] :: k in rows[id := NewRow(now)]
    ensures SumLeft(rows[id := NewRow(now)], ids + [id]) == SumLeft(rows, ids) + MAX_ATTEMPTS
  {
    SumLeftChange(rows, ids, id, NewRow(now));
    assert (ids + [id])[..|ids|] == ids;
  }

  lemma BudgetInsert(s: State, step: Step)
    requires Inv(s) && Enabled(s, step) && Inv(Next(s, step)) && step.Insert?
    ensures Budget(Next(s, step)) == Budget(s) + MAX_ATTEMPTS
  {
    hide Ledger, Due, SumLeft;
    SumLeftInserted(s.rows, s.order, step.id, step.now);
  }

  lemma BudgetFinish(s: State, step: Step)
    requires Inv(s) && Enabled(s, step) && Inv(Next(s, step)) && step.FinishPost?
    ensures Budget(Next(s, step)) <= Budget(s)
  {
    hide Ledger, Backoff;
    assert s.batch[0] in s.batch;
    var id := s.batch[0].id;
    LedgerBounds(s.rows[id], s.posts[id], InFlightFor(s, id), s.clock);
    SumLeftChange(s.rows, s.order, id, Next(s, step).rows[id]);
  }

  lemma LedgerBounds(r: Row, ps: seq<Post>, inFlight: bool, clock: Time)
    requires Ledger(r, ps, inFlight, clock)
    ensures 0 <= r.attempts <= MAX_ATTEMPTS && |ps| == r.attempts + (if inFlight then 1 else 0)
  {
  }

  function Starts(steps: seq<Step>): nat {
    if steps == [] then 0 else (if steps[0].StartPost? then 1 else 0) + Starts(steps[1..])
  }

  function Inserts(steps: seq<Step>): nat {
    if steps == [] then 0 else (if steps[0].Insert? then 1 else 0) + Inserts(steps[1..])
  }

  /** Ticks that find something to do. */
  function ProductiveTicks(steps: seq<Step>): nat {
    if steps == [] then 0
    else (if steps[0].Fetch? && steps[0].claims != [] then 1 else 0) + ProductiveTicks(steps[1..])
  }

  lemma {:induction false} BudgetRun(s: State, steps: seq<Step>)
    requires Inv(s) && ValidRun(s, steps)
    ensures Inv(Run(s, steps))
    ensures Starts(steps) + Budget(Run(s, steps)) <= Budget(s) + 5 * Inserts(steps)
    ensures |Run(s, steps).order| == |s.order| + Inserts(steps)
    decreases |steps|
  {
    hide Ledger, Backoff, Budget;
    if steps != [] {
      StepKeepsInv(s, steps[0]);
      BudgetStep(s, steps[0]);
      BudgetRun(Next(s, steps[0]), steps[1..]);
    }
  }

  /** One when a fetched row is waiting for its POST to start. */
  function Waiting(s: State): nat {
    if s.batch != [] && !s.posting then 1 else 0
  }

  /** Between two productive ticks lies at least one POST. */
  lemma {:induction false} TicksNeedPosts(s: State, steps: seq<Step>)
    requires Inv(s) && ValidRun(s, steps)
    ensures ProductiveTicks(steps) + Waiting(s) <= Starts(steps) + Waiting(Run(s, steps))
    decreases |steps|
  {
    hide Ledger, Backoff;
    if steps != [] {
      StepKeepsInv(s, steps[0]);
      TicksNeedPosts(Next(s, steps[0]), steps[1..]);
    }
  }

  /** n inserted deliveries cause at most 5n POSTs, hence finitely many productive ticks, and every inserted
      row is still there. */
  lemma Quiescence(steps: seq<Step>)
    requires ValidRun(INITIAL, steps)
    ensures Starts(steps) <= 5 * Inserts(steps)
    ensures ProductiveTicks(steps) <= 5 * Inserts(steps)
    ensures |Run(INITIAL, steps).rows| == Inserts(steps)
  {
    hide Ledger, Backoff;
    BudgetRun(INITIAL, steps);
    var s := Run(INITIAL, steps);
    BudgetCoversWaiting(s);
    TicksNeedPosts(INITIAL, steps);
    OrderCounts(s.order);
    assert |s.rows| == |s.rows.Keys|;
  }

  lemma {:induction false} OrderCounts(ids: seq<Id>)
    requires forall i, j | 0 <= i < j < |ids| :: ids[i] != ids[j]
    ensures |set id | id in ids| == |ids|
  {
    if ids != [] {
      var front, last := ids[..|ids| - 1], ids[|ids| - 1];
      OrderCounts(front);
      assert (set id | id in ids) == (set id | id in front) + {last};
    }
  }

  /** Once the budget is spent every row is delivered or has had its five POSTs, and every later tick comes back empty. */
  lemma QuietWhenSpent(s: State, now: Time, claims: seq<Claim>)
    requires Inv(s) && s.batch == [] && ValidBatch(s.rows, now, 50, claims)
    ensures Budget(s) == 0 <==> forall id | id in s.rows :: s.rows[id].delivered || |s.posts[id]| == 5
    ensures Budget(s) == 0 ==> claims == []
  {
    hide Backoff, Ledger;
    forall id | id in s.rows
      ensures 0 <= s.rows[id].attempts == |s.posts[id]| <= 5 && Left(s.rows[id]) <= Budget(s)
    {
      LedgerBounds(s.rows[id], s.posts[id], InFlightFor(s, id), s.clock);
      SumLeftCovers(s.rows, s.order, id);
    }
    if forall id | id in s.rows :: !Pending(s.rows[id]) {
      NothingLeft(s.rows, s.order);
    }
    if claims != [] {
      assert claims[0] in claims;
    }
  }

  lemma {:induction false} NothingLeft(rows: map<Id, Row>, ids: seq<Id>)
    requires forall k | k in ids :: k in rows
    requires forall k | k in ids :: !Pending(rows[k])
    ensures SumLeft(rows, ids) == 0
  {
    if ids != [] {
      NothingLeft(rows, ids[..|ids| - 1]);
    }
  }
}
