/** The two granularities of the auth model fit together: every run of the atomic handlers is a run of the
    statement-level machine in which no two requests race. */
module AtomicRotation {
  import opened Common
  import opened RefreshTokens
  import opened AuthHandlers
  import R = Rotation
  import U = Users

  /** The tokens of a database, with no request in flight. */
  function Idle(db: Db): R.State {
    R.State(db.tokens, db.issued, map[])
  }

  /** `steps` lead from `from` to `to` without a race on the way. */
  ghost predicate RaceFreeTo(from: R.State, steps: seq<R.Step>, to: R.State) {
    R.ValidRun(from, steps) && R.Run(from, steps) == to && R.RaceFree(from, steps)
  }

  lemma NoStep(s: R.State)
    requires |s.requests| <= 1
    ensures RaceFreeTo(s, [], s)
  {
    LoneRequest(s);
  }

  lemma LoneRequest(s: R.State)
    requires |s.requests| <= 1
    ensures !R.Racing(s)
  {
    forall q, r | q in s.requests && r in s.requests
      ensures q == r
    {
      assert |s.requests.Keys - {q}| == 0;
    }
  }

  lemma StepThen(s: R.State, step: R.Step, steps: seq<R.Step>, to: R.State)
    requires R.Enabled(s, step) && |s.requests| <= 1 && RaceFreeTo(R.Next(s, step), steps, to)
    ensures RaceFreeTo(s, [step] + steps, to)
  {
    LoneRequest(s);
    assert ([step] + steps)[1..] == steps;
  }

  lemma OneStep(s: R.State, step: R.Step, to: R.State)
    requires R.Enabled(s, step) && |s.requests| <= 1 && to == R.Next(s, step) && |to.requests| <= 1
    ensures RaceFreeTo(s, [step], to)
  {
    NoStep(to);
    StepThen(s, step, [], to);
    assert [step] + [] == [step];
  }

  /** The statements on refresh_tokens that a handler runs, in order, with its place among the requests in flight. */
  function Statements(cfg: Config, db: Db, req: Request): seq<R.Step> {
    var r := Handle(cfg, db, req).response;
    match req
    case Signup(_, _, _, jti, now) => if r.SignedIn? then [R.SaveLogin(r.user, jti, cfg.ttlDays, now)] else []
    case Login(_, _, jti, now) => if r.SignedIn? then [R.SaveLogin(r.user, jti, cfg.ttlDays, now)] else []
    case Refresh(presented, jti, now) =>
      if presented.None? || !ParsesAsRefresh(presented.value, now) then []
      else if r == Refused(401) then [R.BeginRefresh(0, presented.value, now), R.Check(0, now)]
      else [R.BeginRefresh(0, presented.value, now), R.Check(0, now), R.RevokeOld(0, now),
            if r.Rotated? then R.SaveNew(0, jti, cfg.ttlDays, now) else R.Abandon(0)]
    case Logout(presented, now) => if r == NoContent && presented.Some? then [R.Logout(presented.value, now)] else []
    case LogoutAll(user, now) => if r == NoContent then [R.LogoutAll(user, now)] else []
    case ForgotPassword(_, _, _) => []
    case ResetPassword(token, _, now) =>
      if r == PasswordChanged && token in db.resets then [R.LogoutAll(db.resets[token].user, now)] else []
  }

  /** The statements of a whole run, one handler after the other. */
  function AllStatements(cfg: Config, reqs: seq<Request>): seq<R.Step> {
    if reqs == [] then []
    else var front := reqs[..|reqs| - 1];
         AllStatements(cfg, front) + Statements(cfg, After(cfg, EMPTY, front), reqs[|reqs| - 1])
  }

  lemma IssueInterleaves(db: Db, uid: UserId, jti: Jti, ttl: nat, now: Time)
    requires jti !in db.tokens
    ensures RaceFreeTo(Idle(db), [R.SaveLogin(uid, jti, ttl, now)], Idle(Issue(db, uid, jti, ttl, now).db))
  {
    hide RaceFreeTo;
    OneStep(Idle(db), R.SaveLogin(uid, jti, ttl, now), Idle(Issue(db, uid, jti, ttl, now).db));
  }

  lemma RefusedInterleaves(db: Db, jwt: Jwt, now: Time)
    requires ParsesAsRefresh(jwt, now) && IsValid(db.tokens, jwt.jti, jwt, now).None?
    ensures RaceFreeTo(Idle(db), [R.BeginRefresh(0, jwt, now), R.Check(0, now)], Idle(db))
  {
    hide RaceFreeTo, R.ValidRun, R.Run;
    var reading := R.State(db.tokens, db.issued, map[0 := R.Reading(jwt)]);
    assert R.Next(Idle(db), R.BeginRefresh(0, jwt, now)) == reading;
    assert R.Next(reading, R.Check(0, now)) == Idle(db);
    OneStep(reading, R.Check(0, now), Idle(db));
    StepThen(Idle(db), R.BeginRefresh(0, jwt, now), [R.Check(0, now)], Idle(db));
    assert [R.BeginRefresh(0, jwt, now)] + [R.Check(0, now)] == [R.BeginRefresh(0, jwt, now), R.Check(0, now)];
  }

  lemma AcceptedInterleaves(db: Db, jwt: Jwt, jti: Jti, ttl: nat, now: Time)
    requires ParsesAsRefresh(jwt, now) && IsValid(db.tokens, jwt.jti, jwt, now).Some?
    ensures var e := DoRotate(db, jwt, jti, ttl, now);
            var last := if e.response.Rotated? then R.SaveNew(0, jti, ttl, now) else R.Abandon(0);
            RaceFreeTo(Idle(db), [R.BeginRefresh(0, jwt, now), R.Check(0, now), R.RevokeOld(0, now), last], Idle(e.db))
  {
    hide RaceFreeTo, R.ValidRun, R.Run;
    var s := Idle(db);
    var e := DoRotate(db, jwt, jti, ttl, now);
    var end, uid := Idle(e.db), IsValid(db.tokens, jwt.jti, jwt, now).value;
    var reading := R.State(db.tokens, db.issued, map[0 := R.Reading(jwt)]);
    var revoking := R.State(db.tokens, db.issued, map[0 := R.Revoking(jwt.jti, uid)]);
    var t := RevokeToken(db.tokens, jwt.jti, now);
    var saving := R.State(t, db.issued, map[0 := R.Saving(jwt.jti, uid)]);
    var begin, check, revoke := R.BeginRefresh(0, jwt, now), R.Check(0, now), R.RevokeOld(0, now);
    var last := if e.response.Rotated? then R.SaveNew(0, jti, ttl, now) else R.Abandon(0);
    assert R.Next(s, begin) == reading;
    assert R.Next(reading, check) == revoking;
    assert R.Next(revoking, revoke) == saving;
    assert R.Next(saving, last) == end;
    OneStep(saving, last, end);
    StepThen(revoking, revoke, [last], end);
    StepThen(reading, check, [revoke] + [last], end);
    StepThen(s, begin, [check] + ([revoke] + [last]), end);
    assert [begin] + ([check] + ([revoke] + [last])) == [begin, check, revoke, last];
  }

  /** A Refresh handler run on its own is its statements one after the other. */
  lemma RefreshInterleaves(cfg: Config, db: Db, req: Request)
    requires req.Refresh?
    ensures RaceFreeTo(Idle(db), Statements(cfg, db, req), Idle(Handle(cfg, db, req).db))
  {
    hide RaceFreeTo;
    NoStep(Idle(db));
    if req.presented.Some? && ParsesAsRefresh(req.presented.value, req.now) {
      var jwt := req.presented.value;
      if IsValid(db.tokens, jwt.jti, jwt, req.now).Some? {
        AcceptedInterleaves(db, jwt, req.jti, cfg.ttlDays, req.now);
      } else {
        RefusedInterleaves(db, jwt, req.now);
      }
    }
  }

  /** Every handler leaves the tokens that its own statements leave when they run undisturbed. */
  lemma HandleInterleaves(cfg: Config, db: Db, req: Request)
    ensures RaceFreeTo(Idle(db), Statements(cfg, db, req), Idle(Handle(cfg, db, req).db))
  {
    hide RaceFreeTo, U.PgSignup, U.PgLogin;
    var s, end := Idle(db), Idle(Handle(cfg, db, req).db);
    NoStep(s);
    match req
    case Signup(email, password, id, jti, now) =>
      var e := U.PgSignup(db.users, id, email, password);
      if Handle(cfg, db, req).response.SignedIn? {
        IssueInterleaves(db.(users := e.state), e.result.value.id, jti, cfg.ttlDays, now);
      }
    case Login(email, password, jti, now) =>
      var found := U.PgLogin(db.users, email, password);
      if Handle(cfg, db, req).response.SignedIn? {
        IssueInterleaves(db, found.value.id, jti, cfg.ttlDays, now);
      }
    case Refresh(_, _, _) => RefreshInterleaves(cfg, db, req);
    case Logout(presented, now) =>
      if presented.Some? && ParsesAsRefresh(presented.value, now) {
        OneStep(s, R.Logout(presented.value, now), end);
      }
    case LogoutAll(user, now) =>
      if user != "" {
        OneStep(s, R.LogoutAll(user, now), end);
      }
    case ForgotPassword(_, _, _) =>
    case ResetPassword(token, password, now) =>
      if Handle(cfg, db, req).response == PasswordChanged {
        OneStep(s, R.LogoutAll(db.resets[token].user, now), end);
      }
  }

  /** Every run of the atomic handlers leaves the tokens that its statements leave, run handler by handler, and these
      are an interleaving without races. */
  lemma {:induction false} AtomicRunsInterleave(cfg: Config, reqs: seq<Request>)
    ensures var steps := AllStatements(cfg, reqs);
            && R.ValidRun(R.INITIAL, steps) && R.RaceFree(R.INITIAL, steps)
            && R.Run(R.INITIAL, steps) == Idle(After(cfg, EMPTY, reqs))
    decreases |reqs|
  {
    if reqs == [] {
      NoStep(R.INITIAL);
    } else {
      var front, last := reqs[..|reqs| - 1], reqs[|reqs| - 1];
      AtomicRunsInterleave(cfg, front);
      HandleInterleaves(cfg, After(cfg, EMPTY, front), last);
      hide Handle, Statements;
      R.RunOn(R.INITIAL, AllStatements(cfg, front), Statements(cfg, After(cfg, EMPTY, front), last));
    }
  }
}
