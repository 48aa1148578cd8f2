/** The webhook dispatcher as it runs: the pending query, the two mark statements and the batch loop,
    with other goroutines inserting deliveries before and during every POST. */
module WebhookDispatcher {
  import opened Common
  import opened Webhooks
  import opened WebhookLaws

  /** What the world does around one POST: time passes, deliveries arrive, and the POST ends somehow. */
  datatype Turn = Turn(wait: nat, before: seq<Id>, duration: nat, during: seq<Id>, ok: bool, error: string)

  /** `steps` lead from `from` to `to`, with that many ticks and POSTs among them. */
  ghost predicate Leads(from: State, steps: seq<Step>, to: State, ticks: nat, starts: nat) {
    ValidRun(from, steps) && Run(from, steps) == to && Ticks(steps) == ticks && Starts(steps) == starts
  }

  lemma LeadsNowhere(s: State)
    ensures Leads(s, [], s, 0, 0)
  {
  }

  lemma LeadsOnce(s: State, step: Step)
    requires Enabled(s, step)
    ensures Leads(s, [step], Next(s, step), if step.Fetch? then 1 else 0, if step.StartPost? then 1 else 0)
  {
    assert [step][1..] == [];
    assert ValidRun(Next(s, step), []);
  }

  lemma {:induction false} LeadsOn(s: State, first: seq<Step>, mid: State, second: seq<Step>, end: State,
                                   t1: nat, p1: nat, t2: nat, p2: nat)
    requires Leads(s, first, mid, t1, p1) && Leads(mid, second, end, t2, p2)
    ensures Leads(s, first + second, end, t1 + t2, p1 + p2)
    decreases |first|
  {
    if first == [] {
      assert first + second == second;
    } else {
      var head := first[0];
      LeadsOn(Next(s, head), first[1..], mid, second, end,
              t1 - (if head.Fetch? then 1 else 0), p1 - (if head.StartPost? then 1 else 0), t2, p2);
      assert (first + second)[1..] == first[1..] + second;
    }
  }

  lemma CanFinish(s: State, ok: bool, error: string, now: Time)
    requires Inv(s) && s.posting && s.clock <= now
    ensures Enabled(s, FinishPost(ok, error, now))
    ensures s.batch[0].attempts == s.rows[s.batch[0].id].attempts >= 0
    ensures Inv(Next(s, FinishPost(ok, error, now)))
  {
    hide Backoff;
    assert s.batch[0] in s.batch;
    assert Ledger(s.rows[s.batch[0].id], s.posts[s.batch[0].id], true, s.clock);
    StepKeepsInv(s, FinishPost(ok, error, now));
  }

  lemma CanInsert(s: State, id: Id)
    requires Inv(s) && id !in s.rows
    ensures Enabled(s, Insert(id, s.clock)) && Inv(Next(s, Insert(id, s.clock)))
  {
    hide Ledger;
    StepKeepsInv(s, Insert(id, s.clock));
  }

  lemma CanStart(s: State, now: Time)
    requires Inv(s) && s.batch != [] && !s.posting && s.clock <= now
    ensures Enabled(s, StartPost(now)) && Inv(Next(s, StartPost(now)))
  {
    hide Ledger;
    assert s.batch[0] in s.batch;
    StepKeepsInv(s, StartPost(now));
  }

  lemma CanFetch(s: State, claims: seq<Claim>)
    requires Inv(s) && s.batch == [] && ValidBatch(s.rows, s.clock, BATCH_LIMIT, claims)
    ensures Enabled(s, Fetch(claims, s.clock)) && Inv(Next(s, Fetch(claims, s.clock))) && !s.posting
  {
    hide Ledger;
    StepKeepsInv(s, Fetch(claims, s.clock));
  }

  /** The claims gathered so far are the earliest of the due rows, and `due` are the others. */
  ghost predicate Gathered(rows: map<Id, Row>, now: Time, due: set<Id>, claims: seq<Claim>) {
    && DistinctIds(claims)
    && (forall c | c in claims :: c.id in rows && Due(rows[c.id], now) && c.attempts == rows[c.id].attempts)
    && (forall i, j | 0 <= i < j < |claims| :: rows[claims[i].id].nextRetry <= rows[claims[j].id].nextRetry)
    && (forall id :: id in due <==> id in rows && Due(rows[id], now) && id !in Ids(claims))
    && (forall id, c | id in due && c in claims :: rows[c.id].nextRetry <= rows[id].nextRetry)
  }

  lemma GatherOne(rows: map<Id, Row>, now: Time, due: set<Id>, claims: seq<Claim>, id: Id)
    requires Gathered(rows, now, due, claims)
    requires id in due && forall k | k in due :: rows[id].nextRetry <= rows[k].nextRetry
    ensures Gathered(rows, now, due - {id}, claims + [Claim(id, rows[id].attempts)])
  {
    var more := claims + [Claim(id, rows[id].attempts)];
    assert forall c :: c in more <==> c in claims || c == Claim(id, rows[id].attempts);
    assert Ids(more) == Ids(claims) + {id};
    forall i, j | 0 <= i < j < |more|
      ensures more[i].id != more[j].id && rows[more[i].id].nextRetry <= rows[more[j].id].nextRetry
    {
      assert more[i] == claims[i] && claims[i] in claims && claims[i].id in Ids(claims);
    }
  }

  lemma {:induction false} EarliestExists(rows: map<Id, Row>, due: set<Id>) returns (first: Id)
    requires due != {} && due <= rows.Keys
    ensures first in due && forall id | id in due :: rows[first].nextRetry <= rows[id].nextRetry
    decreases |due|
  {
    first :| first in due;
    if due != {first} {
      assert due - {first} != {};
      var other := EarliestExists(rows, due - {first});
      if rows[other].nextRetry < rows[first].nextRetry {
        first := other;
      }
    }
  }

  class Dispatcher {
    var rows: map<Id, Row>
    var clock: Time
    ghost var batch: seq<Claim>
    ghost var posting: bool
    ghost var order: seq<Id>
    ghost var posts: map<Id, seq<Post>>

    ghost function View(): State
      reads this
    {
      State(rows, batch, posting, clock, order, posts)
    }

    constructor ()
      ensures View() == INITIAL && Inv(View())
    {
      rows, clock, batch, posting, order, posts := map[], 0, [], false, [], map[];
    }

    /** The pending query: due rows by next_retry, ties broken arbitrarily, cut off at the limit. */
    method GetPendingDeliveries(limit: nat) returns (claims: seq<Claim>)
      ensures ValidBatch(rows, clock, limit, claims)
      ensures |claims| <= limit && forall i, j | 0 <= i < j < |claims| :: claims[i].id != claims[j].id
      ensures forall c | c in claims ::
                c.id in rows && var r := rows[c.id];
                !r.delivered && r.attempts < 5 && r.nextRetry <= clock && c.attempts == r.attempts
      ensures forall id | id in rows && !rows[id].delivered && rows[id].attempts < 5 && rows[id].nextRetry <= clock ::
                || (exists c :: c in claims && c.id == id)
                || (|claims| == limit && forall c | c in claims :: rows[c.id].nextRetry <= rows[id].nextRetry)
    {
      claims := [];
      var due := set id | id in rows && Due(rows[id], clock);
      while |claims| < limit && due != {}
        invariant |claims| <= limit && Gathered(rows, clock, due, claims)
        decreases |due|
      {
        ghost var earliest := EarliestExists(rows, due);
        var id :| id in due && forall k | k in due :: rows[id].nextRetry <= rows[k].nextRetry;
        GatherOne(rows, clock, due, claims, id);
        claims := claims + [Claim(id, rows[id].attempts)];
        due := due - {id};
      }
    }

    /** INSERT with next_retry = now(). */
    method InsertDelivery(id: Id)
      requires Inv(View()) && id !in rows
      modifies this`rows, this`order, this`posts
      ensures Inv(View())
      ensures Enabled(old(View()), Insert(id, clock)) && View() == Next(old(View()), Insert(id, clock))
      ensures rows == old(rows)[id := Row(0, clock, false, None, None)]
    {
      hide Inv;
      CanInsert(View(), id);
      rows := rows[id := NewRow(clock)];
      order, posts := order + [id], posts[id := []];
    }

    method MarkDelivered(id: Id)
      modifies this`rows
      ensures rows == if id in old(rows) then old(rows)[id := Delivered(old(rows)[id])] else old(rows)
      ensures id in old(rows) ==>
                var r := old(rows)[id]; rows[id] == Row(r.attempts + 1, r.nextRetry, true, Some(200), None)
    {
      if id in rows {
        rows := rows[id := rows[id].(delivered := true, statusCode := Some(200), response := None,
                                     attempts := rows[id].attempts + 1)];
      }
    }

    method MarkRetry(id: Id, error: string, nextRetry: Time)
      modifies this`rows
      ensures rows == if id in old(rows) then old(rows)[id := Retried(old(rows)[id], error, nextRetry)] else old(rows)
      ensures id in old(rows) ==>
                var r := old(rows)[id]; rows[id] == Row(r.attempts + 1, nextRetry, r.delivered, None, Some(error))
    {
      if id in rows {
        rows := rows[id := rows[id].(attempts := rows[id].attempts + 1, statusCode := None,
                                     response := Some(error), nextRetry := nextRetry)];
      }
    }

    /** Other goroutines insert deliveries; ids are fresh. */
    method Arrivals(ids: seq<Id>) returns (ghost steps: seq<Step>)
      requires Inv(View())
      modifies this
      ensures Inv(View()) && Leads(old(View()), steps, View(), 0, 0)
      ensures batch == old(batch) && posting == old(posting) && clock == old(clock)
    {
      hide Inv, Leads;
      steps := [];
      LeadsNowhere(View());
      for i := 0 to |ids|
        invariant Inv(View()) && Leads(old(View()), steps, View(), 0, 0)
        invariant batch == old(batch) && posting == old(posting) && clock == old(clock)
      {
        if ids[i] !in rows {
          ghost var step, was := Insert(ids[i], clock), View();
          InsertDelivery(ids[i]);
          LeadsOnce(was, step);
          LeadsOn(old(View()), steps, was, [step], View(), 0, 0, 0, 0);
          steps := steps + [step];
        }
      }
    }

    /** The POST of the first claimed row begins. */
    method BeginPost(wait: nat)
      requires Inv(View()) && batch != [] && !posting
      modifies this`clock, this`posting, this`posts
      ensures Inv(View())
      ensures Enabled(old(View()), StartPost(clock)) && View() == Next(old(View()), StartPost(clock))
    {
      hide Inv;
      CanStart(View(), clock + wait);
      clock, posting := clock + wait, true;
      posts := posts[batch[0].id := posts[batch[0].id] + [Post(clock, InFlight)]];
    }

    /** The POST of `r` has ended: mark the row delivered, or stamp it for a later retry. */
    method EndPost(r: Claim, turn: Turn)
      requires Inv(View()) && batch != [] && batch[0] == r && posting
      modifies this`clock, this`posting, this`posts, this`batch, this`rows
      ensures Inv(View())
      ensures Enabled(old(View()), FinishPost(turn.ok, turn.error, clock))
      ensures View() == Next(old(View()), FinishPost(turn.ok, turn.error, clock))
    {
      hide Inv, Backoff;
      CanFinish(View(), turn.ok, turn.error, clock + turn.duration);
      clock := clock + turn.duration;
      if turn.ok {
        MarkDelivered(r.id);
      } else {
        var nextAttempt := r.attempts + 1;
        MarkRetry(r.id, turn.error, clock + Backoff(nextAttempt));
      }
      batch, posting := batch[1..], false;
      posts := posts[r.id := Closed(posts[r.id], if turn.ok then Succeeded(clock) else Failed(clock))];
    }

    /** One round of the batch loop: POST a claimed row and mark it, with deliveries arriving meanwhile. */
    method Deliver(r: Claim, turn: Turn) returns (ghost steps: seq<Step>)
      requires Inv(View()) && batch != [] && batch[0] == r && !posting
      modifies this
      ensures Inv(View()) && Leads(old(View()), steps, View(), 0, 1)
      ensures batch == old(batch)[1..] && !posting
    {
      hide Inv, Leads, Enabled;
      steps := Arrivals(turn.before);
      ghost var s1 := View();
      BeginPost(turn.wait);
      ghost var s2 := View();
      LeadsOnce(s1, StartPost(clock));
      LeadsOn(old(View()), steps, s1, [StartPost(clock)], s2, 0, 0, 0, 1);
      steps := steps + [StartPost(clock)];
      ghost var during := Arrivals(turn.during);
      ghost var s3 := View();
      LeadsOn(old(View()), steps, s2, during, s3, 0, 1, 0, 0);
      EndPost(r, turn);
      ghost var finish := FinishPost(turn.ok, turn.error, clock);
      LeadsOnce(s3, finish);
      LeadsOn(old(View()), steps + during, s3, [finish], View(), 0, 1, 0, 0);
      steps := steps + during + [finish];
    }

    /** One tick: fetch a batch of at most fifty and work through it, whatever the world does meanwhile.
        The tick is a run of the state machine that fetches once, POSTs every fetched row once and ends idle. */
    method ProcessPending(world: nat -> Turn) returns (ghost steps: seq<Step>, ghost claims: seq<Claim>)
      requires Inv(View()) && batch == []
      modifies this
      ensures Inv(View()) && batch == []
      ensures ValidBatch(old(rows), old(clock), 50, claims)
      ensures Leads(old(View()), steps, View(), 1, |claims|)
    {
      hide Inv, Leads, Enabled, ValidBatch;
      var rows := GetPendingDeliveries(BATCH_LIMIT);
      claims := rows;
      ghost var fetch := Fetch(rows, clock);
      CanFetch(View(), rows);
      LeadsOnce(View(), fetch);
      batch := rows;
      steps := [fetch];
      for i := 0 to |rows|
        invariant Inv(View()) && Leads(old(View()), steps, View(), 1, i)
        invariant batch == rows[i..] && !posting
      {
        ghost var was := View();
        ghost var round := Deliver(rows[i], world(i));
        LeadsOn(old(View()), steps, was, round, View(), 1, i, 0, 1);
        steps := steps + round;
      }
    }
  }
}
