/** What the dispatcher can still do: runs that exist, from every reachable state. */
module WebhookReach {
  import opened Webhooks
  import opened WebhookLaws
  import opened WebhookDispatcher

  // ---------- A tick can always be run ----------

  lemma {:induction false} Gather(rows: map<Id, Row>, now: Time, limit: nat, due: set<Id>, claims: seq<Claim>)
    returns (all: seq<Claim>)
    requires Gathered(rows, now, due, claims) && |claims| <= limit
    ensures ValidBatch(rows, now, limit, all)
    decreases |due|
  {
    if |claims| == limit || due == {} {
      all := claims;
    } else {
      var id := EarliestExists(rows, due);
      GatherOne(rows, now, due, claims, id);
      all := Gather(rows, now, limit, due - {id}, claims + [Claim(id, rows[id].attempts)]);
    }
  }

  lemma BatchExists(rows: map<Id, Row>, now: Time) returns (claims: seq<Claim>)
    ensures ValidBatch(rows, now, BATCH_LIMIT, claims)
  {
    claims := Gather(rows, now, BATCH_LIMIT, set id | id in rows && Due(rows[id], now), []);
  }

  /** The fetched rows can be worked through at one instant. */
  lemma {:induction false} Drain(s: State) returns (steps: seq<Step>, end: State)
    requires Inv(s) && !s.posting
    ensures Leads(s, steps, end, 0, |s.batch|) && Inv(end) && end.batch == [] && end.clock == s.clock
    ensures InsertsAfter(steps, s.clock)
    decreases |s.batch|
  {
    hide Inv, Leads, Enabled, InsertsAfter;
    if s.batch == [] {
      steps, end := [], s;
      LeadsNowhere(s);
      NoInserts(steps, s.clock);
    } else {
      var start, finish := StartPost(s.clock), FinishPost(true, "", s.clock);
      CanStart(s, s.clock);
      var s1 := Next(s, start);
      CanFinish(s1, true, "", s.clock);
      var s2 := Next(s1, finish);
      LeadsOnce(s, start);
      LeadsOnce(s1, finish);
      LeadsOn(s, [start], s1, [finish], s2, 0, 1, 0, 0);
      var rest, last := Drain(s2);
      LeadsOn(s, [start] + [finish], s2, rest, last, 0, 1, 0, |s2.batch|);
      steps, end := [start] + [finish] + rest, last;
      NoInserts([start] + [finish], s.clock);
      InsertsJoin([start] + [finish], rest, s.clock);
    }
  }

  lemma NoInserts(steps: seq<Step>, t: Time)
    requires forall i | 0 <= i < |steps| :: !steps[i].Insert?
    ensures InsertsAfter(steps, t)
  {
  }

  lemma InsertsJoin(first: seq<Step>, second: seq<Step>, t: Time)
    requires InsertsAfter(first, t) && InsertsAfter(second, t)
    ensures InsertsAfter(first + second, t)
  {
  }

  lemma Tick(s: State, now: Time) returns (steps: seq<Step>, end: State)
    requires Inv(s) && s.batch == [] && s.clock <= now
    ensures exists posts :: Leads(s, steps, end, 1, posts)
    ensures Inv(end) && end.batch == [] && end.clock == now && InsertsAfter(steps, now)
  {
    hide Leads, InsertsAfter;
    var claims := BatchExists(s.rows, now);
    var fetch := Fetch(claims, now);
    StepKeepsInv(s, fetch);
    hide Inv, Enabled;
    LeadsOnce(s, fetch);
    var fetched := Next(s, fetch);
    var rest, last := Drain(fetched);
    LeadsOn(s, [fetch], fetched, rest, last, 1, 0, 0, |fetched.batch|);
    NoInserts([fetch], now);
    InsertsJoin([fetch], rest, now);
    steps, end := [fetch] + rest, last;
  }

  lemma {:induction false} ManyTicks(s: State, n: nat) returns (steps: seq<Step>, end: State)
    requires Inv(s) && s.batch == []
    ensures exists posts :: Leads(s, steps, end, n, posts)
    ensures Inv(end) && end.batch == [] && InsertsAfter(steps, s.clock)
    decreases n
  {
    hide Inv, Leads, InsertsAfter;
    if n == 0 {
      steps, end := [], s;
      LeadsNowhere(s);
      NoInserts(steps, s.clock);
    } else {
      var first, mid := Tick(s, s.clock);
      var p1 :| Leads(s, first, mid, 1, p1);
      var rest, last := ManyTicks(mid, n - 1);
      var p2 :| Leads(mid, rest, last, n - 1, p2);
      LeadsOn(s, first, mid, rest, last, 1, p1, n - 1, p2);
      InsertsJoin(first, rest, s.clock);
      steps, end := first + rest, last;
    }
  }

  // ---------- A row can be POSTed again exactly while it is undelivered with fewer than five POSTs ----------

  /** Some continuation POSTs the row again. */
  ghost predicate CanBePosted(s: State, id: Id)
    requires id in s.posts
  {
    exists more :: ValidRun(s, more) && id in Run(s, more).posts && |Run(s, more).posts[id]| > |s.posts[id]|
  }

  lemma WaitingIsPosted(s: State, id: Id)
    requires Inv(s) && s.batch == [] && id in s.rows && Pending(s.rows[id])
    ensures CanBePosted(s, id)
  {
    hide Ledger;
    var now := if s.clock <= s.rows[id].nextRetry then s.rows[id].nextRetry + 1 else s.clock;
    var first, mid := Tick(s, now);
    var p1 :| Leads(s, first, mid, 1, p1);
    PostsGrow(s, first, id);
    if |mid.posts[id]| == |s.posts[id]| {
      UnpostedUnchanged(s, first, id);
      var rest, end := ManyTicks(mid, |Ahead(mid, id)| / BATCH_LIMIT + 1);
      var p2 :| Leads(mid, rest, end, |Ahead(mid, id)| / BATCH_LIMIT + 1, p2);
      InsertsEarlier(rest, mid.clock, mid.rows[id].nextRetry);
      PostedInTime(mid, rest, id);
      LeadsOn(s, first, mid, rest, end, 1, p1, |Ahead(mid, id)| / BATCH_LIMIT + 1, p2);
      assert ValidRun(s, first + rest);
    }
  }

  lemma InsertsEarlier(steps: seq<Step>, t: Time, earlier: Time)
    requires InsertsAfter(steps, t) && earlier <= t
    ensures InsertsAfter(steps, earlier)
  {
  }

  /** A row that was not being worked on and has not been POSTed since is as it was. */
  lemma {:induction false} UnpostedUnchanged(s: State, steps: seq<Step>, id: Id)
    requires Inv(s) && ValidRun(s, steps) && id in s.rows && !InFlightFor(s, id)
    requires id in Run(s, steps).posts && |Run(s, steps).posts[id]| == |s.posts[id]|
    ensures id in Run(s, steps).rows && Run(s, steps).rows[id] == s.rows[id]
    decreases |steps|
  {
    hide Ledger, Backoff, ValidBatch;
    if steps != [] {
      var s1 := Next(s, steps[0]);
      StepKeepsInv(s, steps[0]);
      PostsGrow(s1, steps[1..], id);
      UnpostedUnchanged(s1, steps[1..], id);
    }
  }

  /** In every reachable state with the dispatcher idle, some continuation POSTs a row again exactly when no POST of it
      has succeeded and it has had fewer than five. */
  lemma PostedAgainIff(steps: seq<Step>, id: Id)
    requires ValidRun(INITIAL, steps) && Run(INITIAL, steps).batch == [] && id in Run(INITIAL, steps).posts
    ensures var s := Run(INITIAL, steps);
            CanBePosted(s, id) <==> Successes(s.posts[id]) == 0 && |s.posts[id]| < 5
  {
    hide Ledger;
    var s := Run(INITIAL, steps);
    RunKeepsInv(INITIAL, steps);
    DeliveryLedger(steps, id);
    if Pending(s.rows[id]) {
      WaitingIsPosted(s, id);
    } else {
      forall more | ValidRun(s, more) && id in Run(s, more).posts
        ensures |Run(s, more).posts[id]| <= |s.posts[id]|
      {
        SpentStays(s, more, id);
      }
    }
  }

  /** Nothing happens any more to a row that is delivered or exhausted. */
  lemma {:induction false} SpentStays(s: State, steps: seq<Step>, id: Id)
    requires Inv(s) && ValidRun(s, steps) && id in s.rows && !Pending(s.rows[id])
    ensures id in Run(s, steps).posts && Run(s, steps).posts[id] == s.posts[id]
    decreases |steps|
  {
    hide Ledger, Backoff, ValidBatch;
    if steps != [] {
      if s.batch != [] {
        assert s.batch[0] in s.batch;
      }
      StepKeepsInv(s, steps[0]);
      SpentStays(Next(s, steps[0]), steps[1..], id);
    }
  }

  // ---------- Every number of attempts up to five is made ----------

  /** A state with one row only, undelivered and not being worked on. */
  ghost predicate OnlyFailing(s: State, id: Id) {
    Inv(s) && s.batch == [] && s.rows.Keys == {id} && !s.rows[id].delivered
  }

  lemma OnlyRowIsBatch(s: State, id: Id, now: Time)
    requires OnlyFailing(s, id) && s.rows[id].attempts < 5 && s.rows[id].nextRetry <= now && s.clock <= now
    ensures var fetch := Fetch([Claim(id, s.rows[id].attempts)], now);
            Enabled(s, fetch) && Inv(Next(s, fetch)) && !Next(s, fetch).posting
  {
    hide Ledger;
    var claim := Claim(id, s.rows[id].attempts);
    assert Ids([claim]) == {id};
    assert ValidBatch(s.rows, now, BATCH_LIMIT, [claim]);
    StepKeepsInv(s, Fetch([claim], now));
  }

  /** The POST of a fetched row fails at once. */
  lemma FailFetched(s: State, id: Id, now: Time) returns (steps: seq<Step>, end: State)
    requires Inv(s) && !s.posting && s.clock == now && id in s.rows && s.batch == [Claim(id, s.rows[id].attempts)]
    ensures Leads(s, steps, end, 0, 1) && Inv(end) && end.batch == []
    ensures end.rows.Keys == s.rows.Keys
    ensures end.rows[id].delivered == s.rows[id].delivered && end.rows[id].attempts == s.rows[id].attempts + 1
  {
    hide Inv, Leads, Backoff, Enabled;
    var start, fail := StartPost(now), FinishPost(false, "", now);
    CanStart(s, now);
    var s1 := Next(s, start);
    CanFinish(s1, false, "", now);
    end := Next(s1, fail);
    steps := [start] + [fail];
    LeadsOnce(s, start);
    LeadsOnce(s1, fail);
    LeadsOn(s, [start], s1, [fail], end, 0, 1, 0, 0);
  }

  lemma FailOnce(s: State, id: Id) returns (steps: seq<Step>, end: State)
    requires OnlyFailing(s, id) && s.rows[id].attempts < 5
    ensures exists ticks, posts :: Leads(s, steps, end, ticks, posts)
    ensures OnlyFailing(end, id) && end.rows[id].attempts == s.rows[id].attempts + 1
  {
    hide Inv, Leads, Enabled, Run, ValidRun;
    var row := s.rows[id];
    var now := if s.clock <= row.nextRetry then row.nextRetry else s.clock;
    var fetch := Fetch([Claim(id, row.attempts)], now);
    OnlyRowIsBatch(s, id, now);
    LeadsOnce(s, fetch);
    var fetched := Next(s, fetch);
    var rest, last := FailFetched(fetched, id, now);
    LeadsOn(s, [fetch], fetched, rest, last, 1, 0, 0, 1);
    steps, end := [fetch] + rest, last;
  }

  lemma {:induction false} FailTimes(id: Id, n: nat) returns (steps: seq<Step>, end: State)
    requires n <= 5
    ensures exists ticks, posts :: Leads(INITIAL, steps, end, ticks, posts)
    ensures OnlyFailing(end, id) && end.rows[id].attempts == n
  {
    hide Ledger, Leads, OnlyFailing;
    if n == 0 {
      var insert := Insert(id, 0);
      CanInsert(INITIAL, id);
      LeadsOnce(INITIAL, insert);
      steps, end := [insert], Next(INITIAL, insert);
      assert OnlyFailing(end, id) by { OneRow(end, id); }
    } else {
      var first, mid := FailTimes(id, n - 1);
      var t1, p1 :| Leads(INITIAL, first, mid, t1, p1);
      var rest, last := FailOnce(mid, id);
      var t2, p2 :| Leads(mid, rest, last, t2, p2);
      LeadsOn(INITIAL, first, mid, rest, last, t1, p1, t2, p2);
      steps, end := first + rest, last;
    }
  }

  lemma OneRow(s: State, id: Id)
    requires Inv(s) && s.batch == [] && s.rows.Keys == {id} && !s.rows[id].delivered
    ensures OnlyFailing(s, id)
  {
  }

  /** A delivery that keeps failing is POSTed five times: every number of POSTs up to five is reached. */
  lemma FiveAttempts(id: Id, n: nat) returns (steps: seq<Step>)
    requires n <= 5
    ensures ValidRun(INITIAL, steps)
    ensures var s := Run(INITIAL, steps);
            id in s.rows && id in s.posts && !s.rows[id].delivered && s.batch == [] && |s.posts[id]| == n
  {
    hide Ledger;
    var run, end := FailTimes(id, n);
    steps := run;
    DeliveryLedger(steps, id);
  }
}
