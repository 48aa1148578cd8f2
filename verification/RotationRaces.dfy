/** What interleaving does to rotation: when the tokens of a login stop being a single chain, and when
    LogoutAll stops being final. Both conditions are exact. */
module RotationRaces {
  import opened Common
  import opened RefreshTokens
  import opened Rotation

  // ---------- Without a race, every login has a single chain ----------

  predicate Holds(s: State, q: RequestId, j: Jti) {
    q in s.requests && !s.requests[q].Reading? && s.requests[q].jti == j
  }

  lemma IsRace(s: State, q: RequestId, r: RequestId)
    requires q in s.requests && r in s.requests && q != r
    requires s.requests[q].Revoking? && s.requests[r].Revoking? && s.requests[q].jti == s.requests[r].jti
    ensures Racing(s)
  {
  }

  /** A token between check and replacement has one holder and no successor. */
  ghost predicate Exclusive(s: State) {
    && (forall q, r, j | Holds(s, q, j) && Holds(s, r, j) :: q == r)
    && (forall q, c, j | Holds(s, q, j) :: !ChildOf(s.tokens, c, j))
  }

  lemma StepKeepsExclusive(s: State, step: Step)
    requires Inv(s) && Enabled(s, step) && Exclusive(s) && Unbranched(s.tokens)
    requires !Racing(Next(s, step))
    ensures Exclusive(Next(s, step)) && Unbranched(Next(s, step).tokens)
  {
    var s' := Next(s, step);
    match step
    case SaveLogin(user, jti, ttl, now) =>
      InsertKeepsLineage(s.tokens, s.issued, jti, NewRow(user, jti, ttl, now, None));
      forall c, j | ChildOf(s'.tokens, c, j)
        ensures ChildOf(s.tokens, c, j)
      {
      }
      assert forall q, j | Holds(s', q, j) :: Holds(s, q, j);
    case SaveNew(req, jti, ttl, now) =>
      var r := s.requests[req];
      assert RequestOk(s.tokens, r) && Holds(s, req, r.jti);
      InsertKeepsLineage(s.tokens, s.issued, jti, NewRow(r.user, jti, ttl, now, Some(r.jti)));
      forall q, j | Holds(s', q, j)
        ensures Holds(s, q, j) && j != r.jti
      {
        assert Holds(s, q, j) && q != req;
      }
      forall c, j | ChildOf(s'.tokens, c, j) && j != r.jti
        ensures ChildOf(s.tokens, c, j)
      {
      }
    case Check(req, now) =>
      CheckKeepsExclusive(s, step);
    case RevokeOld(req, now) =>
      RevokingKeepsLineage(s.tokens, s'.tokens, s.issued);
      assert forall q, j | Holds(s', q, j) :: Holds(s, q, j);
      assert forall c, j | ChildOf(s'.tokens, c, j) :: ChildOf(s.tokens, c, j);
    case Logout(_, _) =>
      RevokingKeepsLineage(s.tokens, s'.tokens, s.issued);
      assert forall q, j | Holds(s', q, j) :: Holds(s, q, j);
      assert forall c, j | ChildOf(s'.tokens, c, j) :: ChildOf(s.tokens, c, j);
    case LogoutAll(_, _) =>
      RevokingKeepsLineage(s.tokens, s'.tokens, s.issued);
      assert forall q, j | Holds(s', q, j) :: Holds(s, q, j);
      assert forall c, j | ChildOf(s'.tokens, c, j) :: ChildOf(s.tokens, c, j);
    case BeginRefresh(_, _, _) =>
      assert forall q, j | Holds(s', q, j) :: Holds(s, q, j);
    case Abandon(_) =>
      assert forall q, j | Holds(s', q, j) :: Holds(s, q, j);
  }

  lemma CheckKeepsExclusive(s: State, step: Step)
    requires Inv(s) && Enabled(s, step) && step.Check? && Exclusive(s) && !Racing(Next(s, step))
    ensures Exclusive(Next(s, step))
  {
    var s', req := Next(s, step), step.req;
    forall q, j | Holds(s', q, j) && q != req
      ensures Holds(s, q, j)
    {
    }
    if req in s'.requests {
      var j := s'.requests[req].jti;
      forall q | q != req
        ensures !Holds(s, q, j)
      {
        if Holds(s, q, j) {
          assert RequestOk(s.tokens, s.requests[q]);
          if s.requests[q].Revoking? {
            IsRace(s', q, req);
          }
        }
      }
    }
  }

  lemma {:induction false} RaceFreeKeepsExclusive(s: State, steps: seq<Step>)
    requires Inv(s) && Exclusive(s) && Unbranched(s.tokens) && ValidRun(s, steps) && RaceFree(s, steps)
    ensures Unbranched(Run(s, steps).tokens)
    decreases |steps|
  {
    hide Inv, Exclusive, Unbranched, Racing;
    if steps != [] {
      StepEvolves(s, steps[0]);
      StepKeepsExclusive(s, steps[0]);
      RaceFreeKeepsExclusive(Next(s, steps[0]), steps[1..]);
    }
  }

  /** Interleavings in which no two requests race on one token keep every login's descendants a single chain. */
  lemma ChainUnlessRacing(steps: seq<Step>, j: Jti) returns (chain: seq<Jti>)
    requires ValidRun(INITIAL, steps) && RaceFree(INITIAL, steps) && j in Run(INITIAL, steps).tokens
    ensures var t := Run(INITIAL, steps).tokens;
            && IsPath(t, chain) && chain[0] == j
            && (forall q | IsPath(t, q) && q[0] == j :: q <= chain)
            && (forall i | 0 <= i < |chain| - 1 :: t[chain[i]].revokedAt.Some?)
  {
    RunKeepsInv(INITIAL, steps);
    RaceFreeKeepsExclusive(INITIAL, steps);
    var s := Run(INITIAL, steps);
    chain := SingleChainBelow(s.tokens, s.issued, j);
  }

  /** From any state with a race, letting both requests finish gives the token two successors. */
  lemma RaceBranches(s: State, q: RequestId, r: RequestId, a: Jti, b: Jti, now: Time) returns (steps: seq<Step>)
    requires Inv(s) && q in s.requests && r in s.requests && q != r
    requires s.requests[q].Revoking? && s.requests[r].Revoking? && s.requests[q].jti == s.requests[r].jti
    requires a !in s.tokens && b !in s.tokens && a != b
    ensures ValidRun(s, steps) && NoChecks(steps)
    ensures ChildOf(Run(s, steps).tokens, a, s.requests[q].jti) && ChildOf(Run(s, steps).tokens, b, s.requests[q].jti)
  {
    var s1 := Next(s, RevokeOld(q, now));
    var s2 := Next(s1, RevokeOld(r, now));
    var s3 := Next(s2, SaveNew(q, a, 0, now));
    var s4 := Next(s3, SaveNew(r, b, 0, now));
    steps := [RevokeOld(q, now), RevokeOld(r, now), SaveNew(q, a, 0, now), SaveNew(r, b, 0, now)];
    assert ValidRun(s4, []);
    assert steps[3..] == [SaveNew(r, b, 0, now)] && steps[3..][1..] == [];
    assert ValidRun(s3, steps[3..]) && Run(s3, steps[3..]) == s4;
    assert steps[2..][1..] == steps[3..];
    assert ValidRun(s2, steps[2..]) && Run(s2, steps[2..]) == s4;
    assert steps[1..][1..] == steps[2..];
    assert ValidRun(s1, steps[1..]) && Run(s1, steps[1..]) == s4;
  }

  // ---------- The condition is exact ----------

  predicate NoChecks(steps: seq<Step>) {
    forall i | 0 <= i < |steps| :: !steps[i].Check?
  }

  /** However the requests that are past their check go on, no token gets two successors. */
  ghost predicate SettlesUnbranched(s: State) {
    forall more | ValidRun(s, more) && NoChecks(more) :: Unbranched(Run(s, more).tokens)
  }

  /** That holds at the start, at the end and after every step of a run. */
  ghost predicate AlwaysSettles(s: State, steps: seq<Step>)
    requires ValidRun(s, steps)
    decreases |steps|
  {
    SettlesUnbranched(s) && (steps == [] || AlwaysSettles(Next(s, steps[0]), steps[1..]))
  }

  lemma OnlyChecksRace(s: State, step: Step)
    requires Enabled(s, step) && !step.Check? && !Racing(s)
    ensures !Racing(Next(s, step))
  {
  }

  lemma {:induction false} NoChecksNoRace(s: State, steps: seq<Step>)
    requires ValidRun(s, steps) && NoChecks(steps) && !Racing(s)
    ensures RaceFree(s, steps)
    decreases |steps|
  {
    hide Racing, Next, Enabled;
    if steps != [] {
      OnlyChecksRace(s, steps[0]);
      NoChecksNoRace(Next(s, steps[0]), steps[1..]);
    }
  }

  /** Two token ids that are in use nowhere. */
  lemma UnusedIds(issued: seq<Jti>) returns (a: Jti, b: Jti)
    ensures a !in issued && b !in issued && a != b
  {
    var n := LongerThanAll(issued);
    a, b := seq(n, _ => 'x'), seq(n + 1, _ => 'x');
    assert |a| == n && |b| == n + 1;
  }

  lemma {:induction false} LongerThanAll(issued: seq<Jti>) returns (n: nat)
    ensures forall j | j in issued :: |j| < n
  {
    n := 0;
    if issued != [] {
      var m := LongerThanAll(issued[1..]);
      n := if m > |issued[0]| then m else |issued[0]| + 1;
      assert issued == [issued[0]] + issued[1..];
    }
  }

  lemma SettlesIffNoRace(s: State)
    requires Inv(s) && (Racing(s) || (Exclusive(s) && Unbranched(s.tokens)))
    ensures SettlesUnbranched(s) <==> !Racing(s)
  {
    hide Exclusive;
    if Racing(s) {
      var q, r :| q in s.requests && r in s.requests && q != r
                  && s.requests[q].Revoking? && s.requests[r].Revoking? && s.requests[q].jti == s.requests[r].jti;
      var a, b := UnusedIds(s.issued);
      var more := RaceBranches(s, q, r, a, b, 0);
    } else {
      hide Inv, Racing, Unbranched;
      forall more | ValidRun(s, more) && NoChecks(more)
        ensures Unbranched(Run(s, more).tokens)
      {
        NoChecksNoRace(s, more);
        RaceFreeKeepsExclusive(s, more);
      }
    }
  }

  lemma {:induction false} RaceFreeIffSettles(s: State, steps: seq<Step>)
    requires Inv(s) && ValidRun(s, steps) && (Racing(s) || (Exclusive(s) && Unbranched(s.tokens)))
    ensures RaceFree(s, steps) <==> AlwaysSettles(s, steps)
    decreases |steps|
  {
    hide Inv, Exclusive, Unbranched, Racing, SettlesUnbranched;
    SettlesIffNoRace(s);
    if steps != [] && !Racing(s) {
      var s' := Next(s, steps[0]);
      StepEvolves(s, steps[0]);
      if !Racing(s') {
        StepKeepsExclusive(s, steps[0]);
      }
      RaceFreeIffSettles(s', steps[1..]);
    }
  }

  /** A run never lets two requests race on one token exactly when, at every moment of it, the requests that are
      already past their check cannot give any token two successors. */
  lemma BranchesIffRacing(steps: seq<Step>)
    requires ValidRun(INITIAL, steps)
    ensures RaceFree(INITIAL, steps) <==> AlwaysSettles(INITIAL, steps)
  {
    RaceFreeIffSettles(INITIAL, steps);
  }

  /** One login and two requests with its token, both past the check. */
  lemma RaceBegins() returns (steps: seq<Step>)
    ensures ValidRun(INITIAL, steps)
    ensures var s := Run(INITIAL, steps);
            s.tokens.Keys == {"t"} && s.requests == map[0 := Revoking("t", "u"), 1 := Revoking("t", "u")]
  {
    var row := NewRow("u", "t", 1, 0, None);
    var token, issued := row.jwt, ["t"];
    var t: Table := map["t" := row];
    var s1 := State(t, issued, map[]);
    var s2 := State(t, issued, map[0 := Reading(token)]);
    var s3 := State(t, issued, map[0 := Reading(token), 1 := Reading(token)]);
    var s4 := State(t, issued, map[0 := Revoking("t", "u"), 1 := Reading(token)]);
    var s5 := State(t, issued, map[0 := Revoking("t", "u"), 1 := Revoking("t", "u")]);
    assert ValidRun(s5, []) && Run(s5, []) == s5;
    hide ValidRun, Run;
    OneStepOn(s4, Check(1, 0), s5, []);
    steps := [Check(1, 0)] + [];
    OneStepOn(s3, Check(0, 0), s4, steps);
    steps := [Check(0, 0)] + steps;
    OneStepOn(s2, BeginRefresh(1, token, 0), s3, steps);
    steps := [BeginRefresh(1, token, 0)] + steps;
    OneStepOn(s1, BeginRefresh(0, token, 0), s2, steps);
    steps := [BeginRefresh(0, token, 0)] + steps;
    OneStepOn(INITIAL, SaveLogin("u", "t", 1, 0), s1, steps);
    steps := [SaveLogin("u", "t", 1, 0)] + steps;
  }

  /** Races happen: a run from the start that ends in one and goes on to give the token two successors. */
  lemma RaceIsReachable() returns (steps: seq<Step>, more: seq<Step>)
    ensures ValidRun(INITIAL, steps) && Racing(Run(INITIAL, steps))
    ensures ValidRun(INITIAL, steps + more) && !Unbranched(Run(INITIAL, steps + more).tokens)
  {
    steps := RaceBegins();
    var s := Run(INITIAL, steps);
    IsRace(s, 0, 1);
    RunKeepsInv(INITIAL, steps);
    more := RaceBranches(s, 0, 1, "a", "b", 0);
    RunOn(INITIAL, steps, more);
  }

  lemma OneStepOn(s: State, step: Step, s': State, more: seq<Step>)
    requires Enabled(s, step) && Next(s, step) == s' && ValidRun(s', more)
    ensures ValidRun(s, [step] + more) && Run(s, [step] + more) == Run(s', more)
  {
    assert ([step] + more)[1..] == more;
  }

  // ---------- When LogoutAll is final ----------

  /** A request of `u` has passed the validity check and has not stored its successor yet. */
  ghost predicate PastCheck(s: State, u: UserId) {
    exists q | q in s.requests :: !s.requests[q].Reading? && s.requests[q].user == u
  }

  /** No continuation gives a token that `u` had in `earlier` a descendant it did not have then. */
  ghost predicate NoNewDescendants(earlier: Table, u: UserId, s: State) {
    forall more, p | ValidRun(s, more) && IsPath(Run(s, more).tokens, p) && p[0] in earlier && earlier[p[0]].user == u ::
      Last(p) in earlier
  }

  /** The tokens that `u` had in `earlier` are revoked, and no request past its check holds one. */
  ghost predicate Sealed(earlier: Table, u: UserId, s: State) {
    && (forall j | j in earlier && earlier[j].user == u :: j in s.tokens && s.tokens[j].revokedAt.Some?)
    && (forall q, j | Holds(s, q, j) && j in earlier :: earlier[j].user != u)
    && (forall c, p | ChildOf(s.tokens, c, p) && p in earlier && earlier[p].user == u :: c in earlier && earlier[c].user == u)
  }

  /** A request comes to hold a token only by a check that finds it unrevoked. */
  lemma HoldersComeFromChecks(s: State, step: Step, q: RequestId, j: Jti)
    requires Enabled(s, step) && Holds(Next(s, step), q, j)
    ensures Holds(s, q, j) || (j in s.tokens && s.tokens[j].revokedAt.None?)
  {
  }

  /** A token gets a successor only from a request that holds it. */
  lemma SuccessorsComeFromHolders(s: State, step: Step, c: Jti, p: Jti)
    requires Enabled(s, step) && ChildOf(Next(s, step).tokens, c, p)
    ensures ChildOf(s.tokens, c, p) || exists q :: Holds(s, q, p)
  {
    if step.SaveNew? {
      assert Holds(s, step.req, s.requests[step.req].jti);
    }
  }

  lemma StepKeepsSealed(earlier: Table, u: UserId, s: State, step: Step)
    requires Inv(s) && Enabled(s, step) && Sealed(earlier, u, s)
    ensures Sealed(earlier, u, Next(s, step))
  {
    var s' := Next(s, step);
    StepEvolves(s, step);
    hide Inv;
    forall q, j | Holds(s', q, j) && j in earlier
      ensures earlier[j].user != u
    {
      HoldersComeFromChecks(s, step, q, j);
    }
    forall c, p | ChildOf(s'.tokens, c, p) && p in earlier && earlier[p].user == u
      ensures c in earlier && earlier[c].user == u
    {
      SuccessorsComeFromHolders(s, step, c, p);
    }
  }

  lemma {:induction false} RunKeepsSealed(earlier: Table, u: UserId, s: State, steps: seq<Step>)
    requires Inv(s) && ValidRun(s, steps) && Sealed(earlier, u, s)
    ensures Sealed(earlier, u, Run(s, steps))
    decreases |steps|
  {
    hide Inv, Sealed;
    if steps != [] {
      StepEvolves(s, steps[0]);
      StepKeepsSealed(earlier, u, s, steps[0]);
      RunKeepsSealed(earlier, u, Next(s, steps[0]), steps[1..]);
    }
  }

  lemma {:induction false} SealedPath(earlier: Table, u: UserId, s: State, p: seq<Jti>)
    requires Sealed(earlier, u, s) && IsPath(s.tokens, p) && p[0] in earlier && earlier[p[0]].user == u
    ensures Last(p) in earlier && earlier[Last(p)].user == u
    decreases |p|
  {
    if |p| >= 2 {
      SealedPath(earlier, u, s, p[..|p| - 1]);
      assert ChildOf(s.tokens, p[|p| - 1], p[|p| - 2]);
    }
  }

  /** A request that was past its check hands out a working token after LogoutAll. */
  lemma InFlightOutlivesLogoutAll(s: State, q: RequestId, now: Time) returns (more: seq<Step>, jti: Jti)
    requires Inv(s) && q in s.requests && !s.requests[q].Reading?
    ensures var r, s' := s.requests[q], Next(s, LogoutAll(s.requests[q].user, now));
            && jti !in s.tokens && ValidRun(s', more)
            && ChildOf(Run(s', more).tokens, jti, r.jti)
            && IsValid(Run(s', more).tokens, jti, NewRefreshToken(r.user, jti, 1, now), now) == Some(r.user)
  {
    var r := s.requests[q];
    var s' := Next(s, LogoutAll(r.user, now));
    var a, b := UnusedIds(s.issued);
    jti := a;
    var save := SaveNew(q, jti, 1, now);
    if r.Revoking? {
      var s'' := Next(s', RevokeOld(q, now));
      more := [RevokeOld(q, now)] + ([save] + []);
      OneStepOn(s'', save, Next(s'', save), []);
      OneStepOn(s', RevokeOld(q, now), s'', [save] + []);
    } else {
      more := [save] + [];
      OneStepOn(s', save, Next(s', save), []);
    }
  }

  lemma InFlightDescends(s: State, u: UserId, now: Time)
    requires Inv(s) && PastCheck(s, u)
    ensures !NoNewDescendants(s.tokens, u, Next(s, LogoutAll(u, now)))
  {
    var s' := Next(s, LogoutAll(u, now));
    var q :| q in s.requests && !s.requests[q].Reading? && s.requests[q].user == u;
    var more, jti := InFlightOutlivesLogoutAll(s, q, now);
    assert RequestOk(s.tokens, s.requests[q]);
    var p := [s.requests[q].jti, jti];
    StepEvolves(s, LogoutAll(u, now));
    RunKeepsInv(s', more);
    hide Next, Enabled, IsValid;
    assert IsPath(Run(s', more).tokens, p) && Last(p) !in s.tokens;
  }

  lemma LogoutAllSeals(s: State, u: UserId, now: Time)
    requires Inv(s) && !PastCheck(s, u)
    ensures Sealed(s.tokens, u, Next(s, LogoutAll(u, now)))
  {
    var s' := Next(s, LogoutAll(u, now));
    forall q, j | Holds(s', q, j) && j in s.tokens
      ensures s.tokens[j].user != u
    {
      assert RequestOk(s.tokens, s.requests[q]);
    }
    forall c, p | ChildOf(s'.tokens, c, p)
      ensures ChildOf(s.tokens, c, p)
    {
    }
  }

  /** In every interleaving LogoutAll(u) is final, so that no token u had gains a descendant afterwards, exactly when no
      request of u is past its check at that moment. */
  lemma LogoutAllFinalIff(steps: seq<Step>, u: UserId, now: Time)
    requires ValidRun(INITIAL, steps)
    ensures var s := Run(INITIAL, steps);
            NoNewDescendants(s.tokens, u, Next(s, LogoutAll(u, now))) <==> !PastCheck(s, u)
  {
    var s := Run(INITIAL, steps);
    var s' := Next(s, LogoutAll(u, now));
    RunKeepsInv(INITIAL, steps);
    if PastCheck(s, u) {
      InFlightDescends(s, u, now);
    } else {
      LogoutAllSeals(s, u, now);
      StepEvolves(s, LogoutAll(u, now));
      hide Inv, Sealed, IsPath;
      forall more, p | ValidRun(s', more) && IsPath(Run(s', more).tokens, p) && p[0] in s.tokens && s.tokens[p[0]].user == u
        ensures Last(p) in s.tokens
      {
        RunKeepsSealed(s.tokens, u, s', more);
        SealedPath(s.tokens, u, Run(s', more), p);
      }
    }
  }

  lemma {:induction false} RunEvolves(s: State, steps: seq<Step>)
    requires Inv(s) && ValidRun(s, steps)
    ensures Evolves(s.tokens, Run(s, steps).tokens)
    decreases |steps|
  {
    hide Inv;
    if steps != [] {
      StepEvolves(s, steps[0]);
      RunEvolves(Next(s, steps[0]), steps[1..]);
    }
  }

  /** Requests in flight or not, no check after LogoutAll(u) accepts a token that u had before. */
  lemma LogoutAllRefusesEarlier(steps: seq<Step>, u: UserId, now: Time, more: seq<Step>, jwt: Jwt, later: Time)
    requires ValidRun(INITIAL, steps)
    requires ValidRun(Next(Run(INITIAL, steps), LogoutAll(u, now)), more)
    requires var t := Run(INITIAL, steps).tokens; jwt.jti in t && t[jwt.jti].user == u
    ensures IsValid(Run(Next(Run(INITIAL, steps), LogoutAll(u, now)), more).tokens, jwt.jti, jwt, later) == None
  {
    var s := Run(INITIAL, steps);
    RunKeepsInv(INITIAL, steps);
    StepEvolves(s, LogoutAll(u, now));
    RunEvolves(Next(s, LogoutAll(u, now)), more);
  }
}
