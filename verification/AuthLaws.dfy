/** Whole-run laws of the auth handlers. */
module AuthLaws {
  import opened Common
  import opened RefreshTokens
  import opened AuthHandlers
  import U = Users
  import B = Bcrypt

  // ---------- Runs ----------

  lemma {:induction false} AfterConcat(cfg: Config, db: Db, first: seq<Request>, second: seq<Request>)
    ensures After(cfg, db, first + second) == After(cfg, After(cfg, db, first), second)
    decreases |second|
  {
    hide Handle;
    if second == [] {
      assert first + second == first;
    } else {
      AfterConcat(cfg, db, first, second[..|second| - 1]);
      assert (first + second)[..|first + second| - 1] == first + second[..|second| - 1];
    }
  }

  lemma {:induction false} HistoryAt(cfg: Config, db: Db, reqs: seq<Request>, i: nat)
    requires i < |reqs|
    ensures History(cfg, db, reqs)[i] == Entry(reqs[i], Handle(cfg, After(cfg, db, reqs[..i]), reqs[i]).response)
    decreases |reqs|
  {
    hide Handle;
    if i < |reqs| - 1 {
      HistoryAt(cfg, db, reqs[..|reqs| - 1], i);
      assert reqs[..|reqs| - 1][..i] == reqs[..i];
    }
  }

  // ---------- Rotation with atomic handlers ----------

  ghost predicate TokenInv(db: Db) {
    LineageInv(db.tokens, db.issued) && Unbranched(db.tokens)
  }

  /** A row added by a request is rotated from nothing or from a token that was unrevoked. */
  ghost predicate GrowsFromUnrevoked(t: Table, t': Table) {
    forall c, p | ChildOf(t', c, p) && c !in t && p in t :: t[p].revokedAt.None?
  }

  /** What every request does to the tokens. */
  ghost predicate KeepsTokens(db: Db, db': Db) {
    TokenInv(db') && Evolves(db.tokens, db'.tokens) && GrowsFromUnrevoked(db.tokens, db'.tokens)
  }

  lemma KeepsTransitively(db: Db, mid: Db, end: Db)
    requires KeepsTokens(db, mid) && KeepsTokens(mid, end)
    ensures KeepsTokens(db, end)
  {
    hide TokenInv;
    EvolvesTransitively(db.tokens, mid.tokens, end.tokens);
    forall c, p | ChildOf(end.tokens, c, p) && c !in db.tokens && p in db.tokens
      ensures db.tokens[p].revokedAt.None?
    {
      if c in mid.tokens {
        assert ChildOf(mid.tokens, c, p);
      }
    }
  }

  lemma RevokingKeeps(db: Db, db': Db)
    requires TokenInv(db) && db'.issued == db.issued
    requires Evolves(db.tokens, db'.tokens) && db'.tokens.Keys == db.tokens.Keys
    ensures KeepsTokens(db, db')
  {
    RevokingKeepsLineage(db.tokens, db'.tokens, db.issued);
  }

  lemma IssueKeeps(db: Db, uid: UserId, jti: Jti, ttlDays: nat, now: Time)
    requires TokenInv(db)
    ensures KeepsTokens(db, Issue(db, uid, jti, ttlDays, now).db)
  {
    hide LineageInv;
    if jti !in db.tokens {
      InsertKeepsLineage(db.tokens, db.issued, jti, NewRow(uid, jti, ttlDays, now, None));
    }
  }

  lemma RefreshKeeps(db: Db, jwt: Jwt, jti: Jti, ttlDays: nat, now: Time)
    requires TokenInv(db)
    ensures KeepsTokens(db, DoRotate(db, jwt, jti, ttlDays, now).db)
  {
    var valid := IsValid(db.tokens, jwt.jti, jwt, now);
    if ParsesAsRefresh(jwt, now) && valid.Some? {
      var t := RevokeToken(db.tokens, jwt.jti, now);
      RevokingKeepsLineage(db.tokens, t, db.issued);
      assert forall c :: !ChildOf(db.tokens, c, jwt.jti);
      assert forall c | c in t :: !ChildOf(t, c, jwt.jti);
      if jti !in t {
        hide LineageInv, Unbranched;
        InsertKeepsLineage(t, db.issued, jti, NewRow(valid.value, jti, ttlDays, now, Some(jwt.jti)));
      }
    }
  }

  lemma HandleKeepsTokens(cfg: Config, db: Db, req: Request)
    requires TokenInv(db)
    ensures KeepsTokens(db, Handle(cfg, db, req).db)
  {
    hide TokenInv, GrowsFromUnrevoked, U.PgSignup, U.PgLogin;
    var db' := Handle(cfg, db, req).db;
    match req
    case Signup(email, password, id, jti, now) =>
      var e := U.PgSignup(db.users, id, email, password);
      if CredentialsBind(cfg, email, password) && e.result.Ok? {
        SameTokens(db, db.(users := e.state));
        IssueKeeps(db.(users := e.state), e.result.value.id, jti, cfg.ttlDays, now);
      } else {
        RevokingKeeps(db, db');
      }
    case Login(email, password, jti, now) =>
      var found := U.PgLogin(db.users, email, password);
      if CredentialsBind(cfg, email, password) && found.Ok? {
        IssueKeeps(db, found.value.id, jti, cfg.ttlDays, now);
      } else {
        RevokingKeeps(db, db');
      }
    case Refresh(presented, jti, now) =>
      if presented.Some? {
        RefreshKeeps(db, presented.value, jti, cfg.ttlDays, now);
      } else {
        RevokingKeeps(db, db');
      }
    case Logout(_, _) => RevokingKeeps(db, db');
    case LogoutAll(_, _) => RevokingKeeps(db, db');
    case ForgotPassword(_, _, _) => RevokingKeeps(db, db');
    case ResetPassword(_, _, _) => RevokingKeeps(db, db');
  }

  lemma SameTokens(db: Db, db': Db)
    requires TokenInv(db) && db'.tokens == db.tokens && db'.issued == db.issued
    ensures TokenInv(db')
  {
  }

  lemma {:induction false} RunKeepsTokens(cfg: Config, db: Db, reqs: seq<Request>)
    requires TokenInv(db)
    ensures KeepsTokens(db, After(cfg, db, reqs))
    decreases |reqs|
  {
    hide Handle;
    if reqs == [] {
      RevokingKeeps(db, db);
    } else {
      var mid := After(cfg, db, reqs[..|reqs| - 1]);
      RunKeepsTokens(cfg, db, reqs[..|reqs| - 1]);
      HandleKeepsTokens(cfg, mid, reqs[|reqs| - 1]);
      KeepsTransitively(db, mid, After(cfg, db, reqs));
    }
  }

  /** In every run, the tokens descending from one login form a single chain, and at most its end is unrevoked. */
  lemma SingleChain(cfg: Config, reqs: seq<Request>, login: Jti) returns (chain: seq<Jti>)
    requires login in After(cfg, EMPTY, reqs).tokens
    ensures var t := After(cfg, EMPTY, reqs).tokens;
            && IsPath(t, chain) && chain[0] == login
            && (forall q | IsPath(t, q) && q[0] == login :: q <= chain)
            && (forall i | 0 <= i < |chain| - 1 :: t[chain[i]].revokedAt.Some?)
            && (forall i | 0 <= i < |chain| :: t[chain[i]].user == t[login].user)
  {
    hide Handle;
    RunKeepsTokens(cfg, EMPTY, reqs);
    var db := After(cfg, EMPTY, reqs);
    chain := SingleChainBelow(db.tokens, db.issued, login);
    forall i | 0 <= i < |chain|
      ensures db.tokens[chain[i]].user == db.tokens[login].user
    {
      PathAscends(db.tokens, db.issued, chain[..i + 1]);
    }
  }

  /** A Refresh with a token of that id. */
  predicate Presents(req: Request, j: Jti) {
    req.Refresh? && req.presented.Some? && req.presented.value.jti == j
  }

  /** The answer of a Refresh that got past the checks; storing the successor may still fail. */
  predicate Accepted(r: Response) {
    r != Refused(401) && r != Refused(422)
  }

  lemma AcceptedIsRevoked(cfg: Config, db: Db, req: Request, j: Jti)
    requires Presents(req, j) && Accepted(Handle(cfg, db, req).response)
    ensures var t := Handle(cfg, db, req).db.tokens;
            j in t && t[j].revokedAt == Some(req.now)
  {
  }

  /** What a handler hands out works: until its exp claim passes, the token is accepted, for the user it was issued to,
      and its successor is recorded as rotated from it. */
  lemma IssuedTokenIsAccepted(cfg: Config, db: Db, req: Request, jti: Jti, now: Time)
    requires var r := Handle(cfg, db, req).response; r.SignedIn? || r.Rotated?
    requires var e := Handle(cfg, db, req); now < e.response.jwt.exp && jti !in e.db.tokens
    ensures var e := Handle(cfg, db, req);
            var next := Handle(cfg, e.db, Refresh(Some(e.response.jwt), jti, now));
            && next.response.Rotated?
            && e.response.jwt.uid == next.response.jwt.uid
            && ChildOf(next.db.tokens, jti, e.response.jwt.jti)
            && next.db.tokens[jti].jwt == next.response.jwt
            && (req.Login? || req.Signup? ==> e.response.user == e.response.jwt.uid)
  {
    hide U.PgSignup, U.PgLogin;
  }

  lemma RevokedIsRefused(cfg: Config, db: Db, req: Request, j: Jti)
    requires Presents(req, j) && j in db.tokens && db.tokens[j].revokedAt.Some?
    ensures Handle(cfg, db, req).response == Refused(401)
  {
  }

  /** No refresh token is accepted twice: once a Refresh gets past the checks, every later one with that id is refused. */
  lemma AcceptedOnce(cfg: Config, reqs: seq<Request>, i: nat, k: nat, j: Jti)
    requires i < k < |reqs| && Presents(reqs[i], j) && Presents(reqs[k], j)
    requires Accepted(History(cfg, EMPTY, reqs)[i].response)
    ensures History(cfg, EMPTY, reqs)[k].response == Refused(401)
  {
    hide Handle, LineageInv, Unbranched, GrowsFromUnrevoked;
    HistoryAt(cfg, EMPTY, reqs, i);
    HistoryAt(cfg, EMPTY, reqs, k);
    var before, accepted := After(cfg, EMPTY, reqs[..i]), After(cfg, EMPTY, reqs[..i + 1]);
    assert reqs[..i + 1][..i] == reqs[..i];
    AcceptedIsRevoked(cfg, before, reqs[i], j);
    EmptySound();
    RunKeepsTokens(cfg, EMPTY, reqs[..i + 1]);
    RunKeepsTokens(cfg, accepted, reqs[i + 1..k]);
    AfterConcat(cfg, EMPTY, reqs[..i + 1], reqs[i + 1..k]);
    assert reqs[..i + 1] + reqs[i + 1..k] == reqs[..k];
    RevokedIsRefused(cfg, After(cfg, EMPTY, reqs[..k]), reqs[k], j);
  }

  lemma EmptySound()
    ensures TokenInv(EMPTY)
  {
  }

  // ---------- Who passes the checks ----------

  /** Each stored row describes the token that was handed out for it. */
  ghost predicate Truthful(t: Table) {
    forall j | j in t :: t[j].jwt == Jwt(true, "refresh", t[j].user, j, WholeSeconds(t[j].expiresAt))
  }

  lemma HandleKeepsTruthful(cfg: Config, db: Db, req: Request)
    requires Truthful(db.tokens)
    ensures Truthful(Handle(cfg, db, req).db.tokens)
  {
    hide U.PgSignup, U.PgLogin, WholeSeconds;
  }

  lemma {:induction false} RunKeepsTruthful(cfg: Config, reqs: seq<Request>)
    ensures Truthful(After(cfg, EMPTY, reqs).tokens)
  {
    hide Handle;
    if reqs != [] {
      RunKeepsTruthful(cfg, reqs[..|reqs| - 1]);
      HandleKeepsTruthful(cfg, After(cfg, EMPTY, reqs[..|reqs| - 1]), reqs[|reqs| - 1]);
    }
  }

  lemma PassesIffStored(cfg: Config, db: Db, req: Request)
    requires req.Refresh? && Truthful(db.tokens)
    ensures Accepted(Handle(cfg, db, req).response)
            <==> exists j | j in db.tokens ::
                   req.presented == Some(db.tokens[j].jwt) && db.tokens[j].revokedAt.None? && req.now < db.tokens[j].jwt.exp
  {
  }

  /** At every position of every run, a presented token gets past the checks exactly when it is, in every claim, a token
      that was handed out, is unrevoked and has not reached its exp claim; the stored expiry never refuses more. */
  lemma AcceptedIff(cfg: Config, reqs: seq<Request>, i: nat)
    requires i < |reqs| && reqs[i].Refresh?
    ensures var t := After(cfg, EMPTY, reqs[..i]).tokens;
            Accepted(History(cfg, EMPTY, reqs)[i].response)
            <==> exists j | j in t ::
                   reqs[i].presented == Some(t[j].jwt) && t[j].revokedAt.None? && reqs[i].now < t[j].jwt.exp
  {
    hide Handle;
    HistoryAt(cfg, EMPTY, reqs, i);
    RunKeepsTruthful(cfg, reqs[..i]);
    PassesIffStored(cfg, After(cfg, EMPTY, reqs[..i]), reqs[i]);
  }

  // ---------- Finality of revoke-all ----------

  ghost predicate AllRevoked(t: Table, u: UserId) {
    forall j | j in t && t[j].user == u :: t[j].revokedAt.Some?
  }

  /** The requests that revoke every token of `u`. */
  predicate RevokesAll(cfg: Config, db: Db, req: Request, u: UserId) {
    || (req.LogoutAll? && req.user == u && Handle(cfg, db, req).response == NoContent)
    || (req.ResetPassword? && Handle(cfg, db, req).response == PasswordChanged
        && req.token in db.resets && db.resets[req.token].user == u)
  }

  lemma RevokeAllEffect(cfg: Config, db: Db, req: Request, u: UserId)
    requires RevokesAll(cfg, db, req, u)
    ensures var t := Handle(cfg, db, req).db.tokens;
            && t.Keys == db.tokens.Keys && AllRevoked(t, u)
            && forall j | j in t && db.tokens[j].user != u :: t[j] == db.tokens[j]
  {
  }

  lemma {:induction false} PathStaysOld(t: Table, t': Table, issued: seq<Jti>, u: UserId, p: seq<Jti>)
    requires LineageInv(t', issued) && Evolves(t, t') && GrowsFromUnrevoked(t, t') && AllRevoked(t, u)
    requires IsPath(t', p) && p[0] in t && t[p[0]].user == u
    ensures forall i | 0 <= i < |p| :: p[i] in t
    decreases |p|
  {
    if |p| >= 2 {
      var front, k := p[..|p| - 1], |p| - 1;
      PathStaysOld(t, t', issued, u, front);
      PathAscends(t', issued, front);
      assert front[k - 1] in t;
      PathStep(t', p, k);
    }
  }

  lemma RevokedForGood(cfg: Config, before: seq<Request>, req: Request, u: UserId, later: seq<Request>)
    requires RevokesAll(cfg, After(cfg, EMPTY, before), req, u)
    ensures var db := After(cfg, EMPTY, before);
            var revoked := Handle(cfg, db, req).db;
            var end := After(cfg, revoked, later);
            && (forall j | j in db.tokens && db.tokens[j].user != u :: j in revoked.tokens && revoked.tokens[j] == db.tokens[j])
            && (forall j | j in db.tokens && db.tokens[j].user == u ::
                  && (forall req | Presents(req, j) :: Handle(cfg, end, req).response == Refused(401))
                  && (forall p | IsPath(end.tokens, p) && p[0] == j :: forall i | 0 <= i < |p| :: p[i] in db.tokens))
  {
    var db := After(cfg, EMPTY, before);
    var revoked := Handle(cfg, db, req).db;
    var end := After(cfg, revoked, later);
    EmptySound();
    RevokeAllEffect(cfg, db, req, u);
    hide Handle, LineageInv, Unbranched, GrowsFromUnrevoked;
    RunKeepsTokens(cfg, EMPTY, before);
    HandleKeepsTokens(cfg, db, req);
    RunKeepsTokens(cfg, revoked, later);
    forall j | j in db.tokens && db.tokens[j].user == u
      ensures forall req | Presents(req, j) :: Handle(cfg, end, req).response == Refused(401)
      ensures forall p | IsPath(end.tokens, p) && p[0] == j :: forall i | 0 <= i < |p| :: p[i] in db.tokens
    {
      assert end.tokens[j].revokedAt.Some?;
      forall req | Presents(req, j)
        ensures Handle(cfg, end, req).response == Refused(401)
      {
        RevokedIsRefused(cfg, end, req, j);
      }
      forall p | IsPath(end.tokens, p) && p[0] == j
        ensures forall i | 0 <= i < |p| :: p[i] in db.tokens
      {
        PathStaysOld(revoked.tokens, end.tokens, end.issued, u, p);
      }
    }
  }

  /** The request at position `i`, if it presents a token that `u` had in `earlier`, is refused. */
  predicate RefusesOld(cfg: Config, reqs: seq<Request>, i: nat, earlier: Table, u: UserId) {
    i < |reqs| ==>
      forall j | Presents(reqs[i], j) && j in earlier && earlier[j].user == u :: History(cfg, EMPTY, reqs)[i].response == Refused(401)
  }

  /** No token that `u` had in `earlier` has a descendant it did not have then. */
  ghost predicate NoneBelow(earlier: Table, u: UserId, t: Table) {
    forall p | IsPath(t, p) && p[0] in earlier && earlier[p[0]].user == u :: forall n | 0 <= n < |p| :: p[n] in earlier
  }

  lemma RevokedForGoodAt(cfg: Config, reqs: seq<Request>, k: nat, u: UserId, i: nat)
    requires k < i <= |reqs| && RevokesAll(cfg, After(cfg, EMPTY, reqs[..k]), reqs[k], u)
    ensures RefusesOld(cfg, reqs, i, After(cfg, EMPTY, reqs[..k]).tokens, u)
    ensures NoneBelow(After(cfg, EMPTY, reqs[..k]).tokens, u, After(cfg, EMPTY, reqs[..i]).tokens)
  {
    hide Handle, RevokesAll, IsPath;
    assert reqs[..k + 1][..k] == reqs[..k];
    RevokedForGood(cfg, reqs[..k], reqs[k], u, reqs[k + 1..i]);
    AfterConcat(cfg, EMPTY, reqs[..k + 1], reqs[k + 1..i]);
    assert reqs[..k + 1] + reqs[k + 1..i] == reqs[..i];
    if i < |reqs| {
      HistoryAt(cfg, EMPTY, reqs, i);
    }
  }

  lemma RevokeAllKeepsOthers(cfg: Config, reqs: seq<Request>, k: nat, u: UserId)
    requires k < |reqs| && RevokesAll(cfg, After(cfg, EMPTY, reqs[..k]), reqs[k], u)
    ensures var earlier, after := After(cfg, EMPTY, reqs[..k]).tokens, After(cfg, EMPTY, reqs[..k + 1]).tokens;
            forall j | j in earlier && earlier[j].user != u :: j in after && after[j] == earlier[j]
  {
    hide Handle, RevokesAll;
    assert reqs[..k + 1][..k] == reqs[..k];
    RevokeAllEffect(cfg, After(cfg, EMPTY, reqs[..k]), reqs[k], u);
  }

  /** In every run, after LogoutAll(u) or a password reset of u at position `k`, no later request accepts a token that u
      had before or rotates it into a new one, and position `k` itself left every other user's tokens as they were. */
  lemma RevokeAllIsFinal(cfg: Config, reqs: seq<Request>, k: nat, u: UserId)
    requires k < |reqs| && RevokesAll(cfg, After(cfg, EMPTY, reqs[..k]), reqs[k], u)
    ensures var earlier, after := After(cfg, EMPTY, reqs[..k]).tokens, After(cfg, EMPTY, reqs[..k + 1]).tokens;
            forall j | j in earlier && earlier[j].user != u :: j in after && after[j] == earlier[j]
    ensures forall i | k < i < |reqs| :: RefusesOld(cfg, reqs, i, After(cfg, EMPTY, reqs[..k]).tokens, u)
    ensures NoneBelow(After(cfg, EMPTY, reqs[..k]).tokens, u, After(cfg, EMPTY, reqs).tokens)
  {
    hide Handle, After, RevokesAll, RefusesOld, NoneBelow;
    RevokeAllKeepsOthers(cfg, reqs, k, u);
    forall i | k < i < |reqs|
      ensures RefusesOld(cfg, reqs, i, After(cfg, EMPTY, reqs[..k]).tokens, u)
    {
      RevokedForGoodAt(cfg, reqs, k, u, i);
    }
    RevokedForGoodAt(cfg, reqs, k, u, |reqs|);
    assert reqs[..|reqs|] == reqs;
  }

  // ---------- Passwords ----------

  /** The password of an account by its history alone: the one set by the latest successful signup or reset. */
  function LatestPassword(h: seq<Entry>, email: U.Email): Option<string> {
    if h == [] then None
    else var front, last := h[..|h| - 1], h[|h| - 1];
         if last.request.Signup? && last.request.email == email && last.response.SignedIn?
         then Some(last.request.password)
         else if last.request.ResetPassword? && last.response == PasswordChanged
                 && ResetOwner(front, last.request.token) == Some(email)
         then Some(last.request.password)
         else LatestPassword(front, email)
  }

  /** The account a reset token was made for: the latest request for it that named an existing account. */
  function ResetOwner(h: seq<Entry>, token: string): Option<U.Email> {
    if h == [] then None
    else var front, last := h[..|h| - 1], h[|h| - 1];
         if last.request.ForgotPassword? && last.request.token == token && LatestPassword(front, last.request.email).Some?
         then Some(last.request.email)
         else ResetOwner(front, token)
  }

  /** Generated ids and tokens are new. */
  predicate Fresh(db: Db, req: Request) {
    match req
    case Signup(_, _, id, jti, _) => U.GetUserByID(db.users, id).None? && jti !in db.tokens
    case Login(_, _, jti, _) => jti !in db.tokens
    case Refresh(_, jti, _) => jti !in db.tokens
    case ForgotPassword(_, token, _) => token !in db.resets
    case _ => true
  }

  predicate FreshRun(cfg: Config, reqs: seq<Request>) {
    reqs == [] || (FreshRun(cfg, reqs[..|reqs| - 1])
                   && Fresh(After(cfg, EMPTY, reqs[..|reqs| - 1]), reqs[|reqs| - 1]))
  }

  function PasswordOf(users: U.Table, email: U.Email): Option<string> {
    match U.GetUserByEmail(users, email)
    case None => None
    case Some(u) => if u.hash.Hash? then Some(u.hash.password) else None
  }

  function OwnerOf(db: Db, token: string): Option<U.Email> {
    if token !in db.resets then None
    else match U.GetUserByID(db.users, db.resets[token].user)
         case None => None
         case Some(u) => Some(u.email)
  }

  ghost predicate AccountsSound(cfg: Config, db: Db) {
    && U.Unique(db.users)
    && (forall u | u in db.users :: u.hash.Hash? && EmailBinds(cfg, u.email))
    && (forall token | token in db.resets :: U.GetUserByID(db.users, db.resets[token].user).Some?)
  }

  ghost predicate Recorded(db: Db, h: seq<Entry>) {
    && (forall email :: PasswordOf(db.users, email) == LatestPassword(h, email))
    && (forall token :: OwnerOf(db, token) == ResetOwner(h, token))
  }

  lemma SignupRecorded(cfg: Config, db: Db, h: seq<Entry>, u: U.User, db': Db, last: Entry)
    requires AccountsSound(cfg, db) && Recorded(db, h)
    requires last.request.Signup? && last.response.SignedIn? && last.request.email == u.email
    requires u.hash == U.Hash(last.request.password) && EmailBinds(cfg, u.email)
    requires U.GetUserByID(db.users, u.id).None? && U.GetUserByEmail(db.users, u.email).None?
    requires db'.users == db.users + [u] && db'.resets == db.resets
    ensures AccountsSound(cfg, db') && Recorded(db', h + [last])
  {
    var h' := h + [last];
    assert h'[..|h'| - 1] == h;
    forall email
      ensures PasswordOf(db'.users, email) == LatestPassword(h', email)
    {
      U.FindAppended(db.users, u, email, u.id);
      assert PasswordOf(db.users, email) == LatestPassword(h, email);
    }
    forall token
      ensures OwnerOf(db', token) == ResetOwner(h', token)
      ensures token in db'.resets ==> U.GetUserByID(db'.users, db'.resets[token].user).Some?
    {
      assert OwnerOf(db, token) == ResetOwner(h, token);
      if token in db.resets {
        U.FindAppended(db.users, u, "", db.resets[token].user);
      }
    }
  }

  lemma ForgotRecorded(cfg: Config, db: Db, h: seq<Entry>, last: Entry)
    requires AccountsSound(cfg, db) && Recorded(db, h) && last.request.ForgotPassword? && Fresh(db, last.request)
    ensures var db' := DoForgot(db, last.request.email, last.request.token, last.request.now).db;
            AccountsSound(cfg, db') && Recorded(db', h + [last])
  {
    var h', req := h + [last], last.request;
    var db' := DoForgot(db, req.email, req.token, req.now).db;
    assert h'[..|h'| - 1] == h;
    assert PasswordOf(db.users, req.email) == LatestPassword(h, req.email);
    forall email
      ensures PasswordOf(db'.users, email) == LatestPassword(h', email)
    {
      assert PasswordOf(db.users, email) == LatestPassword(h, email);
    }
    forall token
      ensures OwnerOf(db', token) == ResetOwner(h', token)
    {
      assert OwnerOf(db, token) == ResetOwner(h, token);
    }
  }

  /** Changing the hash of one user changes the password of that user's address and of no other. */
  lemma UpdateSetsPassword(users: U.Table, uid: UserId, password: string, owner: U.User, email: U.Email)
    requires U.Unique(users) && U.GetUserByID(users, uid) == Some(owner)
    ensures PasswordOf(U.UpdateUserPassword(users, uid, U.Hash(password)), email)
            == if email == owner.email then Some(password) else PasswordOf(users, email)
  {
    U.FindUpdated(users, uid, U.Hash(password), email, uid);
  }

  lemma UpdateKeepsOwner(db: Db, db': Db, uid: UserId, hash: U.Hash, token: string)
    requires db'.users == U.UpdateUserPassword(db.users, uid, hash)
    requires db'.resets.Keys == db.resets.Keys && forall k | k in db.resets :: db'.resets[k].user == db.resets[k].user
    ensures OwnerOf(db', token) == OwnerOf(db, token)
    ensures token in db.resets ==>
              U.GetUserByID(db'.users, db'.resets[token].user).Some? == U.GetUserByID(db.users, db.resets[token].user).Some?
  {
    if token in db.resets {
      U.FindUpdated(db.users, uid, hash, "", db.resets[token].user);
    }
  }

  lemma UpdateKeepsAccounts(cfg: Config, users: U.Table, uid: UserId, password: string)
    requires forall u | u in users :: u.hash.Hash? && EmailBinds(cfg, u.email)
    ensures forall u | u in U.UpdateUserPassword(users, uid, U.Hash(password)) :: u.hash.Hash? && EmailBinds(cfg, u.email)
  {
    forall u | u in U.UpdateUserPassword(users, uid, U.Hash(password))
      ensures u.hash.Hash? && EmailBinds(cfg, u.email)
    {
      var v := U.UpdatedFrom(users, uid, U.Hash(password), u);
    }
  }

  /** `db'` is `db` with the password changed that `token` was made for. */
  predicate ChangesPassword(db: Db, db': Db, token: string, password: string) {
    && token in db.resets
    && db'.users == U.UpdateUserPassword(db.users, db.resets[token].user, U.Hash(password))
    && db'.resets.Keys == db.resets.Keys && forall k | k in db.resets :: db'.resets[k].user == db.resets[k].user
  }

  lemma ChangeKeepsSound(cfg: Config, db: Db, db': Db, token: string, password: string)
    requires AccountsSound(cfg, db) && ChangesPassword(db, db', token, password)
    ensures AccountsSound(cfg, db')
  {
    var uid := db.resets[token].user;
    U.UpdateKeepsUnique(db.users, uid, U.Hash(password));
    UpdateKeepsAccounts(cfg, db.users, uid, password);
    hide U.UpdateUserPassword, U.Unique, EmailBinds;
    forall k | k in db'.resets
      ensures U.GetUserByID(db'.users, db'.resets[k].user).Some?
    {
      UpdateKeepsOwner(db, db', uid, U.Hash(password), k);
    }
  }

  lemma ResetChangedRecorded(cfg: Config, db: Db, h: seq<Entry>, db': Db, last: Entry)
    requires AccountsSound(cfg, db) && Recorded(db, h)
    requires last.request.ResetPassword? && last.response == PasswordChanged
    requires ChangesPassword(db, db', last.request.token, last.request.password)
    ensures AccountsSound(cfg, db') && Recorded(db', h + [last])
  {
    var h' := h + [last];
    assert h'[..|h'| - 1] == h;
    var uid, password := db.resets[last.request.token].user, last.request.password;
    ChangeKeepsSound(cfg, db, db', last.request.token, password);
    var owner := U.GetUserByID(db.users, uid).value;
    assert OwnerOf(db, last.request.token) == ResetOwner(h, last.request.token);
    hide U.UpdateUserPassword, U.GetUserByEmail, PasswordOf, EmailBinds;
    forall email
      ensures PasswordOf(db'.users, email) == LatestPassword(h', email)
    {
      assert PasswordOf(db.users, email) == LatestPassword(h, email);
      UpdateSetsPassword(db.users, uid, password, owner, email);
    }
    forall token
      ensures OwnerOf(db', token) == ResetOwner(h', token)
    {
      assert OwnerOf(db, token) == ResetOwner(h, token);
      UpdateKeepsOwner(db, db', uid, U.Hash(password), token);
    }
  }

  /** A request that changes no password and makes no reset token. */
  lemma NothingRecorded(cfg: Config, db: Db, h: seq<Entry>, db': Db, last: Entry)
    requires AccountsSound(cfg, db) && Recorded(db, h) && db'.users == db.users
    requires db'.resets.Keys == db.resets.Keys && forall k | k in db.resets :: db'.resets[k].user == db.resets[k].user
    requires last.request.ForgotPassword? ==> LatestPassword(h, last.request.email).None?
    requires last.response != PasswordChanged
    requires last.request.Signup? ==> !last.response.SignedIn?
    ensures AccountsSound(cfg, db') && Recorded(db', h + [last])
  {
    var h' := h + [last];
    assert h'[..|h'| - 1] == h;
    forall token
      ensures OwnerOf(db', token) == ResetOwner(h', token)
    {
      assert OwnerOf(db, token) == ResetOwner(h, token);
    }
    forall email
      ensures PasswordOf(db'.users, email) == LatestPassword(h', email)
    {
      assert PasswordOf(db.users, email) == LatestPassword(h, email);
    }
  }

  lemma UnboundHasNoAccount(cfg: Config, db: Db, h: seq<Entry>, email: U.Email)
    requires AccountsSound(cfg, db) && Recorded(db, h) && !EmailBinds(cfg, email)
    ensures LatestPassword(h, email).None?
  {
    assert PasswordOf(db.users, email) == LatestPassword(h, email);
  }

  lemma StepRecorded(cfg: Config, db: Db, h: seq<Entry>, req: Request)
    requires AccountsSound(cfg, db) && Recorded(db, h) && Fresh(db, req)
    ensures var e := Handle(cfg, db, req);
            AccountsSound(cfg, e.db) && Recorded(e.db, h + [Entry(req, e.response)])
  {
    hide AccountsSound, Recorded;
    var e := Handle(cfg, db, req);
    var last := Entry(req, e.response);
    match req
    case Signup(email, password, id, jti, now) =>
      if e.response.SignedIn? {
        SignupRecorded(cfg, db, h, U.User(id, email, U.Hash(password)), e.db, last);
      } else {
        NothingRecorded(cfg, db, h, e.db, last);
      }
    case ForgotPassword(email, _, _) =>
      if EmailBinds(cfg, email) {
        ForgotRecorded(cfg, db, h, last);
      } else {
        UnboundHasNoAccount(cfg, db, h, email);
        NothingRecorded(cfg, db, h, e.db, last);
      }
    case ResetPassword(_, _, _) =>
      if e.response == PasswordChanged {
        ResetChangedRecorded(cfg, db, h, e.db, last);
      } else {
        NothingRecorded(cfg, db, h, e.db, last);
      }
    case _ => NothingRecorded(cfg, db, h, e.db, last);
  }

  lemma {:induction false} RunRecorded(cfg: Config, reqs: seq<Request>)
    requires FreshRun(cfg, reqs)
    ensures AccountsSound(cfg, After(cfg, EMPTY, reqs)) && Recorded(After(cfg, EMPTY, reqs), History(cfg, EMPTY, reqs))
  {
    if reqs != [] {
      hide Handle, AccountsSound, Recorded;
      var front := reqs[..|reqs| - 1];
      RunRecorded(cfg, front);
      StepRecorded(cfg, After(cfg, EMPTY, front), History(cfg, EMPTY, front), reqs[|reqs| - 1]);
    }
  }

  lemma LoginByRecord(cfg: Config, db: Db, h: seq<Entry>, req: Request)
    requires AccountsSound(cfg, db) && Recorded(db, h) && req.Login? && req.jti !in db.tokens
    ensures Handle(cfg, db, req).response.SignedIn? <==> Unlocks(LatestPassword(h, req.email), req.password)
  {
    hide B.SameKey;
    assert PasswordOf(db.users, req.email) == LatestPassword(h, req.email);
  }

  lemma {:induction false} FreshPrefix(cfg: Config, reqs: seq<Request>, i: nat)
    requires FreshRun(cfg, reqs) && i < |reqs|
    ensures FreshRun(cfg, reqs[..i]) && Fresh(After(cfg, EMPTY, reqs[..i]), reqs[i])
    ensures History(cfg, EMPTY, reqs)[..i] == History(cfg, EMPTY, reqs[..i])
    decreases |reqs|
  {
    hide Handle, Fresh;
    var front := reqs[..|reqs| - 1];
    if i < |front| {
      FreshPrefix(cfg, front, i);
      assert front[..i] == reqs[..i];
    }
  }

  /** The password given is long enough and, as far as bcrypt can tell, the one that was set. */
  predicate Unlocks(latest: Option<string>, given: string) {
    latest.Some? && |given| >= 6 && B.SameKey(latest.value, given)
  }

  /** In every run, a login succeeds exactly with the password set by the latest successful signup or reset before it,
      up to what bcrypt tells apart. */
  lemma LoginLaw(cfg: Config, reqs: seq<Request>, i: nat)
    requires FreshRun(cfg, reqs) && i < |reqs| && reqs[i].Login?
    ensures var h := History(cfg, EMPTY, reqs);
            h[i].response.SignedIn? <==> Unlocks(LatestPassword(h[..i], reqs[i].email), reqs[i].password)
  {
    FreshPrefix(cfg, reqs, i);
    hide Handle;
    HistoryAt(cfg, EMPTY, reqs, i);
    RunRecorded(cfg, reqs[..i]);
    LoginByRecord(cfg, After(cfg, EMPTY, reqs[..i]), History(cfg, EMPTY, reqs[..i]), reqs[i]);
  }

  /** A password on record was accepted by the payload check and by bcrypt. */
  lemma {:induction false} LatestPasswordFits(cfg: Config, reqs: seq<Request>, email: U.Email)
    requires LatestPassword(History(cfg, EMPTY, reqs), email).Some?
    ensures var p := LatestPassword(History(cfg, EMPTY, reqs), email).value; |p| >= 6 && |B.Utf8(p)| <= 72
  {
    var front, last := reqs[..|reqs| - 1], reqs[|reqs| - 1];
    var h := History(cfg, EMPTY, reqs);
    var e := Handle(cfg, After(cfg, EMPTY, front), last);
    assert h[..|h| - 1] == History(cfg, EMPTY, front);
    SetPasswordFits(cfg, After(cfg, EMPTY, front), last);
    hide Handle, B.Utf8;
    if LatestPassword(History(cfg, EMPTY, front), email).Some? {
      LatestPasswordFits(cfg, front, email);
    }
  }

  lemma SetPasswordFits(cfg: Config, db: Db, req: Request)
    ensures var r := Handle(cfg, db, req).response;
            (req.Signup? && r.SignedIn?) || (req.ResetPassword? && r == PasswordChanged)
            ==> |req.password| >= 6 && |B.Utf8(req.password)| <= 72
  {
    hide B.Utf8;
  }

  /** Without NULs and up to 72 bytes that is equality: the login succeeds with the latest password and no other. */
  lemma LoginExact(cfg: Config, reqs: seq<Request>, i: nat)
    requires FreshRun(cfg, reqs) && i < |reqs| && reqs[i].Login?
    requires B.NulFree(reqs[i].password) && |B.Utf8(reqs[i].password)| <= 72
    requires var p := LatestPassword(History(cfg, EMPTY, reqs)[..i], reqs[i].email); p.Some? ==> B.NulFree(p.value)
    ensures var h := History(cfg, EMPTY, reqs);
            h[i].response.SignedIn? <==> LatestPassword(h[..i], reqs[i].email) == Some(reqs[i].password)
  {
    LoginLaw(cfg, reqs, i);
    FreshPrefix(cfg, reqs, i);
    hide Handle, LatestPassword, FreshRun, B.Utf8, B.NulFree, B.SameKey;
    var h := History(cfg, EMPTY, reqs[..i]);
    var p := LatestPassword(h, reqs[i].email);
    if p.Some? {
      LatestPasswordFits(cfg, reqs[..i], reqs[i].email);
      B.SameKeyIffEqual(p.value, reqs[i].password);
    }
  }

  /** Beyond that it is not: every account can also be entered with another password than its latest. */
  lemma TwinUnlocks(cfg: Config, reqs: seq<Request>, i: nat, p: string)
    requires FreshRun(cfg, reqs) && i < |reqs| && reqs[i].Login?
    requires LatestPassword(History(cfg, EMPTY, reqs)[..i], reqs[i].email) == Some(p)
    requires reqs[i].password == p + "\0" + p
    ensures History(cfg, EMPTY, reqs)[i].response.SignedIn? && reqs[i].password != p
  {
    LoginLaw(cfg, reqs, i);
    FreshPrefix(cfg, reqs, i);
    hide Handle, LatestPassword, FreshRun, B.Utf8, B.SameKey;
    LatestPasswordFits(cfg, reqs[..i], reqs[i].email);
    B.EveryPasswordHasATwin(p);
  }

  // ---------- Reset tokens ----------

  predicate ChangedBy(e: Entry, token: string) {
    e.request.ResetPassword? && e.request.token == token && e.response == PasswordChanged
  }

  predicate Used(db: Db, token: string) {
    token in db.resets && db.resets[token].usedAt.Some?
  }

  lemma {:induction false} UsedStaysUsed(cfg: Config, db: Db, reqs: seq<Request>, token: string)
    requires Used(db, token)
    ensures Used(After(cfg, db, reqs), token)
    decreases |reqs|
  {
    if reqs != [] {
      UsedStaysUsed(cfg, db, reqs[..|reqs| - 1], token);
    }
  }

  lemma ChangingUses(cfg: Config, db: Db, req: Request)
    requires req.ResetPassword? && Handle(cfg, db, req).response == PasswordChanged
    ensures Used(Handle(cfg, db, req).db, req.token)
  {
  }

  lemma UsedIsRefused(cfg: Config, db: Db, req: Request, token: string)
    requires Used(db, token)
    ensures !ChangedBy(Entry(req, Handle(cfg, db, req).response), token)
  {
  }

  /** A reset token changes a password at most once. */
  lemma ResetOnce(cfg: Config, reqs: seq<Request>, i: nat, k: nat, token: string)
    requires i < k < |reqs| && ChangedBy(History(cfg, EMPTY, reqs)[i], token)
    ensures !ChangedBy(History(cfg, EMPTY, reqs)[k], token)
  {
    hide Handle;
    HistoryAt(cfg, EMPTY, reqs, i);
    HistoryAt(cfg, EMPTY, reqs, k);
    var used := After(cfg, EMPTY, reqs[..i + 1]);
    assert reqs[..i + 1][..i] == reqs[..i];
    ChangingUses(cfg, After(cfg, EMPTY, reqs[..i]), reqs[i]);
    UsedStaysUsed(cfg, used, reqs[i + 1..k], token);
    AfterConcat(cfg, EMPTY, reqs[..i + 1], reqs[i + 1..k]);
    assert reqs[..i + 1] + reqs[i + 1..k] == reqs[..k];
    UsedIsRefused(cfg, After(cfg, EMPTY, reqs[..k]), reqs[k], token);
  }

  /** Only a ForgotPassword makes a reset token, due an hour later; nothing removes one or moves its expiry. */
  lemma ResetMadeBy(cfg: Config, db: Db, req: Request, token: string)
    requires token in Handle(cfg, db, req).db.resets
    ensures var r := Handle(cfg, db, req).db.resets[token];
            if token in db.resets then r.expiresAt == db.resets[token].expiresAt
            else req.ForgotPassword? && req.token == token && r.expiresAt == req.now + HOUR
  {
    hide U.PgSignup, U.PgLogin, U.PgGetByEmail, RevokeToken, RevokeAllUserTokens;
  }

  lemma {:induction false} ResetOrigin(cfg: Config, reqs: seq<Request>, token: string) returns (i: nat)
    requires token in After(cfg, EMPTY, reqs).resets
    ensures i < |reqs| && reqs[i].ForgotPassword? && reqs[i].token == token
    ensures After(cfg, EMPTY, reqs).resets[token].expiresAt == reqs[i].now + HOUR
    ensures token !in After(cfg, EMPTY, reqs[..i]).resets && token in After(cfg, EMPTY, reqs[..i + 1]).resets
    decreases |reqs|
  {
    hide Handle;
    var front := reqs[..|reqs| - 1];
    ResetMadeBy(cfg, After(cfg, EMPTY, front), reqs[|reqs| - 1], token);
    if token in After(cfg, EMPTY, front).resets {
      i := ResetOrigin(cfg, front, token);
      assert front[..i] == reqs[..i] && front[..i + 1] == reqs[..i + 1];
    } else {
      i := |reqs| - 1;
      assert reqs[..i + 1] == reqs;
    }
  }

  /** A reset token changes a password only within an hour of the request that made it. */
  lemma ResetWithinHour(cfg: Config, reqs: seq<Request>, k: nat) returns (i: nat)
    requires k < |reqs| && reqs[k].ResetPassword? && ChangedBy(History(cfg, EMPTY, reqs)[k], reqs[k].token)
    ensures i < k && reqs[i].ForgotPassword? && reqs[i].token == reqs[k].token
    ensures var token := reqs[k].token;
            token !in After(cfg, EMPTY, reqs[..i]).resets && token in After(cfg, EMPTY, reqs[..i + 1]).resets
    ensures reqs[k].now <= reqs[i].now + 3_600_000_000
  {
    HistoryAt(cfg, EMPTY, reqs, k);
    i := ResetOrigin(cfg, reqs[..k], reqs[k].token);
    assert reqs[..k][..i] == reqs[..i] && reqs[..k][..i + 1] == reqs[..i + 1];
  }
}
