/** Password resets with every database statement a step of its own and any number of requests in flight: the token is
    looked up, marked used and the password updated, and other requests may run in between. */
module ResetRaces {
  import opened Common
  import opened AuthHandlers
  import U = Users

  type RequestId = nat

  datatype Reset =
    | Reading(token: string, password: string)                 // the payload was accepted; the lookup is next
    | Marking(token: string, password: string, user: U.UserId) // found unused and unexpired; marking it used is next
    | Updating(token: string, user: U.UserId, hash: U.Hash)    // marked and hashed; the password update is next

  /** `changes` lists the token of every password update made so far. */
  datatype State = State(users: U.Table, resets: Resets, changes: seq<string>, requests: map<RequestId, Reset>)

  datatype Step =
    | Create(user: U.UserId, token: string, now: int)
    | Begin(req: RequestId, token: string, password: string)
    | Lookup(req: RequestId, now: int)
    | Mark(req: RequestId, now: int)
    | Update(req: RequestId)
    | Abandon(req: RequestId)

  predicate Enabled(s: State, step: Step) {
    match step
    case Create(_, token, _) => token !in s.resets
    case Begin(req, token, password) => req !in s.requests && ResetBinds(token, password)
    case Lookup(req, _) => req in s.requests && s.requests[req].Reading?
    case Mark(req, _) => req in s.requests && s.requests[req].Marking? && s.requests[req].token in s.resets
    case Update(req) => req in s.requests && s.requests[req].Updating?
    case Abandon(req) => req in s.requests
  }

  /** Marking is an UPDATE without a guard; a password that bcrypt refuses ends the request only after it. */
  function Next(s: State, step: Step): State
    requires Enabled(s, step)
  {
    match step
    case Create(user, token, now) => s.(resets := s.resets[token := ResetRow(user, now + HOUR, None)])
    case Begin(req, token, password) => s.(requests := s.requests[req := Reading(token, password)])
    case Lookup(req, now) =>
      var r := s.requests[req];
      (match ResetUser(s.resets, r.token, now)
       case None => s.(requests := s.requests - {req})
       case Some(user) => s.(requests := s.requests[req := Marking(r.token, r.password, user)]))
    case Mark(req, now) =>
      var r := s.requests[req];
      var marked := s.(resets := MarkUsed(s.resets, r.token, now));
      (match U.GenerateHash(r.password)
       case Err(_) => marked.(requests := s.requests - {req})
       case Ok(hash) => marked.(requests := s.requests[req := Updating(r.token, r.user, hash)]))
    case Update(req) =>
      var r := s.requests[req];
      s.(users := U.UpdateUserPassword(s.users, r.user, r.hash), changes := s.changes + [r.token],
         requests := s.requests - {req})
    case Abandon(req) => s.(requests := s.requests - {req})
  }

  predicate ValidRun(s: State, steps: seq<Step>)
    decreases |steps|
  {
    steps == [] || (Enabled(s, steps[0]) && ValidRun(Next(s, steps[0]), steps[1..]))
  }

  function Run(s: State, steps: seq<Step>): State
    requires ValidRun(s, steps)
    decreases |steps|
  {
    if steps == [] then s else Run(Next(s, steps[0]), steps[1..])
  }

  function Initial(users: U.Table): State {
    State(users, map[], [], map[])
  }

  // ---------- What every step keeps ----------

  /** Requests past the lookup have a stored token; those past the marking, and all changes, a used one. */
  ghost predicate Inv(s: State) {
    && (forall q | q in s.requests && !s.requests[q].Reading? :: s.requests[q].token in s.resets)
    && (forall q | q in s.requests && s.requests[q].Updating? :: s.resets[s.requests[q].token].usedAt.Some?)
    && (forall k | k in s.changes :: k in s.resets && s.resets[k].usedAt.Some?)
  }

  lemma StepKeepsInv(s: State, step: Step)
    requires Inv(s) && Enabled(s, step)
    ensures Inv(Next(s, step))
  {
    hide U.GenerateHash, U.UpdateUserPassword;
    if step.Update? {
      var r := s.requests[step.req];
      forall k | k in s.changes + [r.token]
        ensures k in s.resets && s.resets[k].usedAt.Some?
      {
      }
    }
  }

  lemma {:induction false} RunKeepsInv(s: State, steps: seq<Step>)
    requires Inv(s) && ValidRun(s, steps)
    ensures Inv(Run(s, steps))
    decreases |steps|
  {
    hide Inv, Next, Enabled;
    if steps != [] {
      StepKeepsInv(s, steps[0]);
      RunKeepsInv(Next(s, steps[0]), steps[1..]);
    }
  }

  // ---------- Races ----------

  /** No token has changed a password twice. */
  predicate EachOnce(changes: seq<string>) {
    forall i, j | 0 <= i < j < |changes| :: changes[i] != changes[j]
  }

  /** The request has found its token and its password can be hashed. */
  predicate Holds(s: State, q: RequestId, token: string) {
    && q in s.requests && !s.requests[q].Reading? && s.requests[q].token == token
    && (s.requests[q].Marking? ==> U.GenerateHash(s.requests[q].password).Ok?)
  }

  /** Two such requests have found one token unused and neither has marked it yet. */
  ghost predicate Racing(s: State) {
    exists q, r, k | Holds(s, q, k) && Holds(s, r, k) && q != r :: s.requests[q].Marking? && s.requests[r].Marking?
  }

  ghost predicate RaceFree(s: State, steps: seq<Step>)
    requires ValidRun(s, steps)
    decreases |steps|
  {
    !Racing(s) && (steps == [] || RaceFree(Next(s, steps[0]), steps[1..]))
  }

  /** A token that may still change a password has one request to do so, and has not done it yet. */
  ghost predicate Exclusive(s: State) {
    && (forall q, r, k | Holds(s, q, k) && Holds(s, r, k) :: q == r)
    && (forall q, k | Holds(s, q, k) :: k !in s.changes)
    && EachOnce(s.changes)
  }

  lemma StepKeepsExclusive(s: State, step: Step)
    requires Inv(s) && Enabled(s, step) && Exclusive(s) && !Racing(Next(s, step))
    ensures Exclusive(Next(s, step))
  {
    hide U.GenerateHash, U.UpdateUserPassword;
    var s' := Next(s, step);
    if step.Lookup? {
      LookupKeepsExclusive(s, step);
    } else {
      forall q, k | Holds(s', q, k)
        ensures Holds(s, q, k)
      {
      }
      if step.Update? {
        assert Holds(s, step.req, s.requests[step.req].token);
      }
    }
  }

  lemma LookupKeepsExclusive(s: State, step: Step)
    requires Inv(s) && Enabled(s, step) && step.Lookup? && Exclusive(s) && !Racing(Next(s, step))
    ensures Exclusive(Next(s, step))
  {
    hide U.GenerateHash;
    var s', req := Next(s, step), step.req;
    forall q, k | Holds(s', q, k) && q != req
      ensures Holds(s, q, k)
    {
    }
    if req in s'.requests {
      var k := s'.requests[req].token;
      forall q | Holds(s', q, k) && Holds(s', req, k)
        ensures q == req
      {
        assert s.resets[k].usedAt.None?;
      }
    }
  }

  lemma {:induction false} RaceFreeKeepsExclusive(s: State, steps: seq<Step>)
    requires Inv(s) && Exclusive(s) && ValidRun(s, steps) && RaceFree(s, steps)
    ensures Exclusive(Run(s, steps))
    decreases |steps|
  {
    hide Inv, Exclusive, Racing, Next, Enabled;
    if steps != [] {
      StepKeepsInv(s, steps[0]);
      StepKeepsExclusive(s, steps[0]);
      RaceFreeKeepsExclusive(Next(s, steps[0]), steps[1..]);
    }
  }

  /** From any state with a race, letting both requests finish makes the token change a password twice. */
  lemma RaceChangesTwice(s: State, q: RequestId, r: RequestId, k: string) returns (steps: seq<Step>)
    requires Inv(s) && Holds(s, q, k) && Holds(s, r, k) && q != r
    requires s.requests[q].Marking? && s.requests[r].Marking?
    ensures ValidRun(s, steps) && NoLookups(steps) && !EachOnce(Run(s, steps).changes)
  {
    hide U.GenerateHash, U.UpdateUserPassword;
    var s1 := Next(s, Mark(q, 0));
    var s2 := Next(s1, Mark(r, 0));
    var s3 := Next(s2, Update(q));
    var s4 := Next(s3, Update(r));
    assert s4.changes == s.changes + [k] + [k];
    assert s4.changes[|s.changes|] == s4.changes[|s.changes| + 1];
    assert ValidRun(s4, []) && Run(s4, []) == s4;
    hide ValidRun, Run, Next;
    StepThen(s3, Update(r), s4, []);
    StepThen(s2, Update(q), s3, [Update(r)] + []);
    StepThen(s1, Mark(r, 0), s2, [Update(q)] + ([Update(r)] + []));
    StepThen(s, Mark(q, 0), s1, [Mark(r, 0)] + ([Update(q)] + ([Update(r)] + [])));
    steps := [Mark(q, 0)] + ([Mark(r, 0)] + ([Update(q)] + ([Update(r)] + [])));
  }

  lemma StepThen(s: State, step: Step, s': State, more: seq<Step>)
    requires Enabled(s, step) && Next(s, step) == s' && ValidRun(s', more)
    ensures ValidRun(s, [step] + more) && Run(s, [step] + more) == Run(s', more)
  {
    assert ([step] + more)[1..] == more;
  }

  // ---------- A token changes a password once, exactly without races ----------

  predicate NoLookups(steps: seq<Step>) {
    forall i | 0 <= i < |steps| :: !steps[i].Lookup?
  }

  /** However the requests that have found their token go on, no token changes a password twice. */
  ghost predicate SettlesOnce(s: State) {
    forall more | ValidRun(s, more) && NoLookups(more) :: EachOnce(Run(s, more).changes)
  }

  /** That holds at the start, at the end and after every step of a run. */
  ghost predicate AlwaysSettles(s: State, steps: seq<Step>)
    requires ValidRun(s, steps)
    decreases |steps|
  {
    SettlesOnce(s) && (steps == [] || AlwaysSettles(Next(s, steps[0]), steps[1..]))
  }

  lemma OnlyLookupsRace(s: State, step: Step)
    requires Enabled(s, step) && !step.Lookup? && !Racing(s)
    ensures !Racing(Next(s, step))
  {
    hide U.GenerateHash, U.UpdateUserPassword;
    var s' := Next(s, step);
    assert forall q, k | Holds(s', q, k) && s'.requests[q].Marking? :: Holds(s, q, k) && s.requests[q].Marking?;
  }

  lemma {:induction false} NoLookupsNoRace(s: State, steps: seq<Step>)
    requires ValidRun(s, steps) && NoLookups(steps) && !Racing(s)
    ensures RaceFree(s, steps)
    decreases |steps|
  {
    hide Racing, Next, Enabled;
    if steps != [] {
      OnlyLookupsRace(s, steps[0]);
      NoLookupsNoRace(Next(s, steps[0]), steps[1..]);
    }
  }

  lemma SettlesIffNoRace(s: State)
    requires Inv(s) && (Racing(s) || Exclusive(s))
    ensures SettlesOnce(s) <==> !Racing(s)
  {
    if Racing(s) {
      var q, r, k :| Holds(s, q, k) && Holds(s, r, k) && q != r && s.requests[q].Marking? && s.requests[r].Marking?;
      var more := RaceChangesTwice(s, q, r, k);
    } else {
      forall more | ValidRun(s, more) && NoLookups(more)
        ensures EachOnce(Run(s, more).changes)
      {
        hide Inv, Racing;
        NoLookupsNoRace(s, more);
        RaceFreeKeepsExclusive(s, more);
      }
    }
  }

  lemma {:induction false} RaceFreeIffSettles(s: State, steps: seq<Step>)
    requires Inv(s) && ValidRun(s, steps) && (Racing(s) || Exclusive(s))
    ensures RaceFree(s, steps) <==> AlwaysSettles(s, steps)
    decreases |steps|
  {
    hide Inv, Exclusive, Racing, SettlesOnce, Next, Enabled;
    SettlesIffNoRace(s);
    if steps != [] && !Racing(s) {
      var s' := Next(s, steps[0]);
      StepKeepsInv(s, steps[0]);
      if !Racing(s') {
        StepKeepsExclusive(s, steps[0]);
      }
      RaceFreeIffSettles(s', steps[1..]);
    }
  }

  /** A run never lets two requests race on one reset token exactly when, at every moment of it, the requests that have
      found their token cannot make any token change a password twice. */
  lemma ResetOnceIffNoRace(users: U.Table, steps: seq<Step>)
    requires ValidRun(Initial(users), steps)
    ensures RaceFree(Initial(users), steps) <==> AlwaysSettles(Initial(users), steps)
    ensures RaceFree(Initial(users), steps) ==> EachOnce(Run(Initial(users), steps).changes)
  {
    RaceFreeIffSettles(Initial(users), steps);
    if RaceFree(Initial(users), steps) {
      RaceFreeKeepsExclusive(Initial(users), steps);
    }
  }

  /** Such a race happens with any token and any password: both of two requests find the token unused. */
  lemma RaceIsReachable(users: U.Table, user: U.UserId, token: string, password: string) returns (steps: seq<Step>)
    requires ResetBinds(token, password) && U.GenerateHash(password).Ok?
    ensures ValidRun(Initial(users), steps) && Racing(Run(Initial(users), steps))
  {
    hide U.GenerateHash, ResetBinds;
    var resets: Resets := map[token := ResetRow(user, HOUR, None)];
    var begun, found := Reading(token, password), Marking(token, password, user);
    var s1 := State(users, resets, [], map[]);
    var s2 := State(users, resets, [], map[0 := begun]);
    var s3 := State(users, resets, [], map[0 := begun, 1 := begun]);
    var s4 := State(users, resets, [], map[0 := found, 1 := begun]);
    var s5 := State(users, resets, [], map[0 := found, 1 := found]);
    assert ValidRun(s5, []) && Run(s5, []) == s5;
    hide ValidRun, Run;
    StepThen(s4, Lookup(1, 0), s5, []);
    steps := [Lookup(1, 0)] + [];
    StepThen(s3, Lookup(0, 0), s4, steps);
    steps := [Lookup(0, 0)] + steps;
    StepThen(s2, Begin(1, token, password), s3, steps);
    steps := [Begin(1, token, password)] + steps;
    StepThen(s1, Begin(0, token, password), s2, steps);
    steps := [Begin(0, token, password)] + steps;
    StepThen(Initial(users), Create(user, token, 0), s1, steps);
    steps := [Create(user, token, 0)] + steps;
    assert Holds(s5, 0, token) && Holds(s5, 1, token);
  }

  // ---------- The atomic handler is these statements, undisturbed ----------

  /** The statements of a ResetPassword that nothing interrupts. */
  function Statements(resets: Resets, token: string, password: string, now: int): seq<Step> {
    if !ResetBinds(token, password) then []
    else [Begin(0, token, password), Lookup(0, now)]
         + (if ResetUser(resets, token, now).None? then []
            else [Mark(0, now)] + if U.GenerateHash(password).Ok? then [Update(0)] else [])
  }

  /** Run on their own, they leave the users and reset tokens that the handler leaves, and one more change exactly when
      it answers that the password was changed. */
  lemma ResetIsItsStatements(db: Db, changes: seq<string>, token: string, password: string, now: int)
    ensures var s, e := State(db.users, db.resets, changes, map[]), DoReset(db, token, password, now);
            var steps := Statements(db.resets, token, password, now);
            && ValidRun(s, steps)
            && Run(s, steps) == State(e.db.users, e.db.resets,
                                      if e.response == PasswordChanged then changes + [token] else changes, map[])
  {
    hide U.GenerateHash, U.UpdateUserPassword, ResetBinds;
    var s := State(db.users, db.resets, changes, map[]);
    var begin, look, mark, update := Begin(0, token, password), Lookup(0, now), Mark(0, now), Update(0);
    if ResetBinds(token, password) {
      var s1 := s.(requests := map[0 := Reading(token, password)]);
      var s2 := Next(s1, look);
      var found := ResetUser(db.resets, token, now);
      if found.None? {
        assert s2.requests == map[];
        StepThen(s1, look, s2, []);
        StepThen(s, begin, s1, [look] + []);
        assert [begin] + ([look] + []) == Statements(db.resets, token, password, now);
      } else {
        assert s2.requests == map[0 := Marking(token, password, found.value)];
        var s3 := Next(s2, mark);
        if U.GenerateHash(password).Ok? {
          var s4 := Next(s3, update);
          assert s4.requests == map[];
          StepThen(s3, update, s4, []);
          StepThen(s2, mark, s3, [update] + []);
          StepThen(s1, look, s2, [mark] + ([update] + []));
          StepThen(s, begin, s1, [look] + ([mark] + ([update] + [])));
          assert [begin] + ([look] + ([mark] + ([update] + []))) == Statements(db.resets, token, password, now);
        } else {
          assert s3.requests == map[];
          StepThen(s2, mark, s3, []);
          StepThen(s1, look, s2, [mark] + []);
          StepThen(s, begin, s1, [look] + ([mark] + []));
          assert [begin] + ([look] + ([mark] + [])) == Statements(db.resets, token, password, now);
        }
      }
    }
  }
}
