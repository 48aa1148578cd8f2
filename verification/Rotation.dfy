/** Refresh-token rotation with every database statement a step of its own and any number of requests in
    flight. A Refresh request reads the row, revokes it and inserts its successor; between any two of its
    statements other requests may run, and it may be abandoned at any point. */
module Rotation {
  import opened Common
  import opened RefreshTokens

  type RequestId = nat

  datatype Request =
    | Reading(jwt: Jwt)                  // the token parsed; IsValid is next
    | Revoking(jti: Jti, user: UserId)   // IsValid accepted; Revoke is next
    | Saving(jti: Jti, user: UserId)     // the old token is revoked; SaveRefresh is next

  datatype State = State(tokens: Table, issued: seq<Jti>, requests: map<RequestId, Request>)

  datatype Step =
    | SaveLogin(user: UserId, jti: Jti, ttlDays: nat, now: Time)
    | BeginRefresh(req: RequestId, jwt: Jwt, now: Time)
    | Check(req: RequestId, now: Time)
    | RevokeOld(req: RequestId, now: Time)
    | SaveNew(req: RequestId, jti: Jti, ttlDays: nat, now: Time)
    | Abandon(req: RequestId)
    | Logout(jwt: Jwt, now: Time)
    | LogoutAll(user: UserId, now: Time)

  predicate Enabled(s: State, step: Step) {
    match step
    case SaveLogin(_, jti, _, _) => jti !in s.tokens
    case BeginRefresh(req, jwt, now) => req !in s.requests && ParsesAsRefresh(jwt, now)
    case Check(req, _) => req in s.requests && s.requests[req].Reading?
    case RevokeOld(req, _) => req in s.requests && s.requests[req].Revoking?
    case SaveNew(req, jti, _, _) => req in s.requests && s.requests[req].Saving? && jti !in s.tokens
    case Abandon(req) => req in s.requests
    case Logout(jwt, now) => ParsesAsRefresh(jwt, now)
    case LogoutAll(_, _) => true
  }

  function Next(s: State, step: Step): State
    requires Enabled(s, step)
  {
    match step
    case SaveLogin(user, jti, ttl, now) =>
      s.(tokens := s.tokens[jti := NewRow(user, jti, ttl, now, None)], issued := s.issued + [jti])
    case BeginRefresh(req, jwt, _) =>
      s.(requests := s.requests[req := Reading(jwt)])
    case Check(req, now) =>
      var jwt := s.requests[req].jwt;
      (match IsValid(s.tokens, jwt.jti, jwt, now)
       case None => s.(requests := s.requests - {req})
       case Some(user) => s.(requests := s.requests[req := Revoking(jwt.jti, user)]))
    case RevokeOld(req, now) =>
      var r := s.requests[req];
      s.(tokens := RevokeToken(s.tokens, r.jti, now), requests := s.requests[req := Saving(r.jti, r.user)])
    case SaveNew(req, jti, ttl, now) =>
      var r := s.requests[req];
      s.(tokens := s.tokens[jti := NewRow(r.user, jti, ttl, now, Some(r.jti))], issued := s.issued + [jti],
         requests := s.requests - {req})
    case Abandon(req) => s.(requests := s.requests - {req})
    case Logout(jwt, now) => s.(tokens := RevokeToken(s.tokens, jwt.jti, now))
    case LogoutAll(user, now) => s.(tokens := RevokeAllUserTokens(s.tokens, user, now))
  }

  predicate ValidRun(s: State, steps: seq<Step>)
    decreases |steps|
  {
    steps == [] || (Enabled(s, steps[0]) && ValidRun(Next(s, steps[0]), steps[1..]))
  }

  function Run(s: State, steps: seq<Step>): State
    requires ValidRun(s, steps)
    decreases |steps|
  {
    if steps == [] then s else Run(Next(s, steps[0]), steps[1..])
  }

  const INITIAL: State := State(map[], [], map[])

  // ---------- The lineage invariant under full interleaving ----------

  ghost predicate RequestOk(t: Table, r: Request) {
    !r.Reading? ==> r.jti in t && t[r.jti].user == r.user && (r.Saving? ==> t[r.jti].revokedAt.Some?)
  }

  ghost predicate Inv(s: State) {
    LineageInv(s.tokens, s.issued) && forall q | q in s.requests :: RequestOk(s.tokens, s.requests[q])
  }

  lemma StepEvolves(s: State, step: Step)
    requires Inv(s) && Enabled(s, step)
    ensures Evolves(s.tokens, Next(s, step).tokens)
    ensures Inv(Next(s, step))
  {
    hide LineageInv;
    var s' := Next(s, step);
    assert Evolves(s.tokens, s'.tokens);
    match step
    case SaveLogin(user, jti, ttl, now) =>
      InsertKeepsLineage(s.tokens, s.issued, jti, NewRow(user, jti, ttl, now, None));
    case SaveNew(req, jti, ttl, now) =>
      var r := s.requests[req];
      assert RequestOk(s.tokens, r);
      InsertKeepsLineage(s.tokens, s.issued, jti, NewRow(r.user, jti, ttl, now, Some(r.jti)));
    case RevokeOld(_, _) => RevokingKeepsLineage(s.tokens, s'.tokens, s.issued);
    case Logout(_, _) => RevokingKeepsLineage(s.tokens, s'.tokens, s.issued);
    case LogoutAll(_, _) => RevokingKeepsLineage(s.tokens, s'.tokens, s.issued);
    case Check(_, _) =>
    case BeginRefresh(_, _, _) =>
    case Abandon(_) =>
  }

  /** A check lets a request pass exactly when its token is, in every claim, one that is stored, unrevoked and not past
      the stored expiry; the request then acts for the user of that row. */
  lemma CheckPassesIff(s: State, req: RequestId, now: Time)
    requires Enabled(s, Check(req, now))
    ensures var jwt, s' := s.requests[req].jwt, Next(s, Check(req, now));
            && s'.tokens == s.tokens
            && (req in s'.requests <==>
                  jwt.jti in s.tokens && var row := s.tokens[jwt.jti];
                  row.jwt == jwt && row.revokedAt.None? && now <= row.expiresAt)
            && (req in s'.requests ==> s'.requests[req] == Revoking(jwt.jti, s.tokens[jwt.jti].user))
            && (forall q | q != req :: q in s'.requests <==> q in s.requests)
            && (forall q | q != req && q in s.requests :: s'.requests[q] == s.requests[q])
  {
  }

  lemma {:induction false} RunKeepsInv(s: State, steps: seq<Step>)
    requires Inv(s) && ValidRun(s, steps)
    ensures Inv(Run(s, steps))
    decreases |steps|
  {
    hide Inv;
    if steps != [] {
      StepEvolves(s, steps[0]);
      RunKeepsInv(Next(s, steps[0]), steps[1..]);
    }
  }

  /** In every reachable state of every interleaving: rotation never forms a cycle, every token on a path has
      the user of the path's start, every token with a successor is revoked, and every token descends from
      a login with its own user. */
  lemma RotationLineage(steps: seq<Step>)
    requires ValidRun(INITIAL, steps)
    ensures var t := Run(INITIAL, steps).tokens;
            && (forall p | IsPath(t, p) && |p| >= 2 :: p[0] != Last(p))
            && (forall p | IsPath(t, p) :: t[p[0]].user == t[Last(p)].user)
            && (forall c, p | ChildOf(t, c, p) :: p in t && t[p].revokedAt.Some?)
            && (forall j | j in t :: exists p :: IsPath(t, p) && Last(p) == j && t[p[0]].rotatedFrom.None?
                                                 && t[p[0]].user == t[j].user)
  {
    RunKeepsInv(INITIAL, steps);
    var s := Run(INITIAL, steps);
    var t := s.tokens;
    forall p | IsPath(t, p)
      ensures t[p[0]].user == t[Last(p)].user && (|p| >= 2 ==> p[0] != Last(p))
    {
      PathAscends(t, s.issued, p);
    }
    forall j | j in t
      ensures exists p :: IsPath(t, p) && Last(p) == j && t[p[0]].rotatedFrom.None? && t[p[0]].user == t[j].user
    {
      var p := LoginOf(t, s.issued, j);
      PathAscends(t, s.issued, p);
    }
  }

  // ---------- Races ----------

  /** Two requests have both passed the validity check of one token and neither has revoked it yet. */
  ghost predicate Racing(s: State) {
    exists q, r | q in s.requests && r in s.requests && q != r ::
      s.requests[q].Revoking? && s.requests[r].Revoking? && s.requests[q].jti == s.requests[r].jti
  }

  ghost predicate RaceFree(s: State, steps: seq<Step>)
    requires ValidRun(s, steps)
    decreases |steps|
  {
    !Racing(s) && (steps == [] || RaceFree(Next(s, steps[0]), steps[1..]))
  }

  /** Runs compose, and so does freedom from races. */
  lemma {:induction false} RunOn(s: State, first: seq<Step>, second: seq<Step>)
    requires ValidRun(s, first) && ValidRun(Run(s, first), second)
    ensures ValidRun(s, first + second) && Run(s, first + second) == Run(Run(s, first), second)
    ensures RaceFree(s, first + second) <==> RaceFree(s, first) && RaceFree(Run(s, first), second)
    decreases |first|
  {
    hide Next, Enabled, Racing;
    if first == [] {
      assert first + second == second;
    } else {
      RunOn(Next(s, first[0]), first[1..], second);
      assert (first + second)[1..] == first[1..] + second;
    }
  }
}
