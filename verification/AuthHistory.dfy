/** The auth handlers described without their tables: every answer of every run as a function of what was asked and
    answered before. */
module AuthHistory {
  import opened Common
  import opened RefreshTokens
  import opened AuthHandlers
  import opened AuthLaws
  import U = Users
  import B = Bcrypt

  // ---------- What the history says ----------

  /** The id of the account that signed up with an address. */
  function AccountOf(h: seq<Entry>, email: U.Email): Option<UserId> {
    if h == [] then None
    else var front, last := h[..|h| - 1], h[|h| - 1];
         if last.request.Signup? && last.request.email == email && last.response.SignedIn?
         then Some(last.request.id)
         else AccountOf(front, email)
  }

  /** When a reset token was made, as long as no reset has consumed it; a reset that fails to hash consumes it too. */
  function Resettable(h: seq<Entry>, token: string): Option<Time> {
    if h == [] then None
    else var front, last := h[..|h| - 1], h[|h| - 1];
         if last.request.ForgotPassword? && last.request.token == token && AccountOf(front, last.request.email).Some?
         then Some(last.request.now)
         else if last.request.ResetPassword? && last.request.token == token
                 && (last.response == PasswordChanged || last.response == Refused(500))
         then None
         else Resettable(front, token)
  }

  /** The user whose tokens an answered request revoked. */
  function LoggedOutBy(front: seq<Entry>, last: Entry): Option<UserId> {
    if last.request.LogoutAll? && last.response == NoContent then Some(last.request.user)
    else if last.request.ResetPassword? && last.response == PasswordChanged && ResetOwner(front, last.request.token).Some?
    then AccountOf(front, ResetOwner(front, last.request.token).value)
    else None
  }

  /** The token with that id, if it was handed out and neither rotated nor logged out since. */
  function Live(h: seq<Entry>, j: Jti): Option<Jwt> {
    if h == [] then None
    else var front, last := h[..|h| - 1], h[|h| - 1];
         if (last.response.SignedIn? || last.response.Rotated?) && last.response.jwt.jti == j then Some(last.response.jwt)
         else if Presents(last.request, j) && last.response.Rotated? then None
         else if last.request.Logout? && last.response == NoContent
                 && last.request.presented.Some? && last.request.presented.value.jti == j then None
         else var was := Live(front, j);
              if was.Some? && LoggedOutBy(front, last) == Some(was.value.uid) then None else was
  }

  /** A refresh token lives for whole days from its issue; its exp claim has whole seconds. */
  function Token(uid: UserId, jti: Jti, ttlDays: nat, now: Time): Jwt {
    Jwt(true, "refresh", uid, jti, (now + ttlDays * 86_400_000_000) / 1_000_000 * 1_000_000)
  }

  predicate BadCredentials(cfg: Config, email: U.Email, password: string) {
    email == "" || !cfg.isEmail(email) || |password| < 6
  }

  /** The answer that the history calls for. */
  function Answer(cfg: Config, h: seq<Entry>, req: Request): Response {
    match req
    case Signup(email, password, id, jti, now) =>
      if BadCredentials(cfg, email, password) then Refused(422)
      else if AccountOf(h, email).Some? || |B.Utf8(password)| > 72 then Refused(409)
      else SignedIn(id, Token(id, jti, cfg.ttlDays, now))
    case Login(email, password, jti, now) =>
      if BadCredentials(cfg, email, password) then Refused(422)
      else if AccountOf(h, email).None? || !Unlocks(LatestPassword(h, email), password) then Refused(401)
      else var id := AccountOf(h, email).value;
           SignedIn(id, Token(id, jti, cfg.ttlDays, now))
    case Refresh(presented, jti, now) =>
      if presented.None? then Refused(422)
      else if Live(h, presented.value.jti) == presented && now < presented.value.exp
      then Rotated(Token(presented.value.uid, jti, cfg.ttlDays, now))
      else Refused(401)
    case Logout(presented, now) =>
      if presented.None? then Refused(422)
      else var t := presented.value;
           if t.authentic && t.typ == "refresh" && now < t.exp then NoContent else Refused(401)
    case LogoutAll(user, _) => if user == "" then Refused(401) else NoContent
    case ForgotPassword(email, _, _) => if email == "" || !cfg.isEmail(email) then Refused(422) else ResetSent
    case ResetPassword(token, password, now) =>
      if token == "" || |password| < 6 then Refused(422)
      else var made := Resettable(h, token);
           if made.None? || now > made.value + 3_600_000_000 then Refused(401)
           else if |B.Utf8(password)| > 72 then Refused(500)
           else PasswordChanged
  }

  // ---------- The tables hold what the history says ----------

  function IdOf(users: U.Table, email: U.Email): Option<UserId> {
    match U.GetUserByEmail(users, email) case None => None case Some(u) => Some(u.id)
  }

  function UnusedSince(resets: Resets, token: string): Option<Time> {
    if token in resets && resets[token].usedAt.None? then Some(resets[token].expiresAt - 3_600_000_000) else None
  }

  function Unrevoked(t: Table, j: Jti): Option<Jwt> {
    if j in t && t[j].revokedAt.None? then Some(t[j].jwt) else None
  }

  ghost predicate Remembers(db: Db, h: seq<Entry>) {
    && (forall email :: AccountOf(h, email) == IdOf(db.users, email))
    && (forall token :: Resettable(h, token) == UnusedSince(db.resets, token))
    && (forall j :: Live(h, j) == Unrevoked(db.tokens, j))
  }

  ghost predicate Sound(cfg: Config, db: Db, h: seq<Entry>) {
    AccountsSound(cfg, db) && Recorded(db, h) && Truthful(db.tokens) && Remembers(db, h)
  }

  lemma TokenIsIssued(uid: UserId, jti: Jti, ttlDays: nat, now: Time)
    ensures NewRefreshToken(uid, jti, ttlDays, now) == Token(uid, jti, ttlDays, now)
  {
  }

  lemma SignupAnswers(cfg: Config, db: Db, h: seq<Entry>, req: Request)
    requires Sound(cfg, db, h) && Fresh(db, req) && req.Signup?
    ensures Handle(cfg, db, req).response == Answer(cfg, h, req)
  {
    hide B.Utf8, NewRefreshToken, Token;
    TokenIsIssued(req.id, req.jti, cfg.ttlDays, req.now);
    assert AccountOf(h, req.email) == IdOf(db.users, req.email);
  }

  lemma LoginAnswers(cfg: Config, db: Db, h: seq<Entry>, req: Request)
    requires Sound(cfg, db, h) && Fresh(db, req) && req.Login?
    ensures Handle(cfg, db, req).response == Answer(cfg, h, req)
  {
    hide B.Utf8, B.SameKey, NewRefreshToken, Token;
    assert AccountOf(h, req.email) == IdOf(db.users, req.email);
    assert PasswordOf(db.users, req.email) == LatestPassword(h, req.email);
    if AccountOf(h, req.email).Some? {
      TokenIsIssued(AccountOf(h, req.email).value, req.jti, cfg.ttlDays, req.now);
    }
  }

  lemma RefreshAnswers(cfg: Config, db: Db, h: seq<Entry>, req: Request)
    requires Sound(cfg, db, h) && Fresh(db, req) && req.Refresh?
    ensures Handle(cfg, db, req).response == Answer(cfg, h, req)
  {
    hide NewRefreshToken, Token, AccountsSound, Recorded;
    if req.presented.Some? {
      var t := req.presented.value;
      assert Live(h, t.jti) == Unrevoked(db.tokens, t.jti);
      TokenIsIssued(t.uid, req.jti, cfg.ttlDays, req.now);
    }
  }

  lemma ResetAnswers(cfg: Config, db: Db, h: seq<Entry>, req: Request)
    requires Sound(cfg, db, h) && Fresh(db, req) && req.ResetPassword?
    ensures Handle(cfg, db, req).response == Answer(cfg, h, req)
  {
    hide B.Utf8, AccountsSound, Recorded, Truthful;
    assert Resettable(h, req.token) == UnusedSince(db.resets, req.token);
  }

  lemma HandlerAnswers(cfg: Config, db: Db, h: seq<Entry>, req: Request)
    requires Sound(cfg, db, h) && Fresh(db, req)
    ensures Handle(cfg, db, req).response == Answer(cfg, h, req)
  {
    hide Sound;
    match req
    case Signup(_, _, _, _, _) => SignupAnswers(cfg, db, h, req);
    case Login(_, _, _, _) => LoginAnswers(cfg, db, h, req);
    case Refresh(_, _, _) => RefreshAnswers(cfg, db, h, req);
    case ResetPassword(_, _, _) => ResetAnswers(cfg, db, h, req);
    case _ =>
  }

  // ---------- Every request keeps it so ----------

  lemma OthersKeep(cfg: Config, db: Db, req: Request)
    ensures var e := Handle(cfg, db, req);
            && (!(req.Signup? && e.response.SignedIn?) && e.response != PasswordChanged && Fresh(db, req) ==> e.db.users == db.users)
            && (!req.ForgotPassword? && !req.ResetPassword? ==> e.db.resets == db.resets)
            && (e.response == PasswordChanged ==> req.ResetPassword?)
  {
    hide U.PgLogin, U.PgGetByEmail, U.GenerateHash, U.UpdateUserPassword, B.Utf8, NewRefreshToken, RevokeToken, RevokeAllUserTokens;
  }

  lemma AccountsRemembered(cfg: Config, db: Db, h: seq<Entry>, req: Request, email: U.Email)
    requires Sound(cfg, db, h) && Fresh(db, req)
    ensures var e := Handle(cfg, db, req);
            AccountOf(h + [Entry(req, e.response)], email) == IdOf(e.db.users, email)
  {
    var e := Handle(cfg, db, req);
    var h' := h + [Entry(req, e.response)];
    assert h'[..|h'| - 1] == h;
    assert AccountOf(h, email) == IdOf(db.users, email);
    OthersKeep(cfg, db, req);
    if req.Signup? && e.response.SignedIn? {
      SignupAppends(cfg, db, req);
      hide Handle, AccountsSound, Recorded, Remembers, Truthful;
      U.FindAppended(db.users, U.User(req.id, req.email, U.Hash(req.password)), email, "");
    } else if e.response == PasswordChanged {
      ResetUpdates(cfg, db, req);
      hide Handle, AccountsSound, Recorded, Remembers, Truthful;
      U.FindUpdated(db.users, db.resets[req.token].user, U.Hash(req.password), email, "");
    } else {
      hide Handle, AccountsSound, Recorded, Remembers, Truthful;
    }
  }

  lemma SignupAppends(cfg: Config, db: Db, req: Request)
    requires req.Signup? && Handle(cfg, db, req).response.SignedIn?
    ensures Handle(cfg, db, req).db.users == db.users + [U.User(req.id, req.email, U.Hash(req.password))]
    ensures U.GetUserByEmail(db.users, req.email).None?
  {
    hide B.Utf8, NewRefreshToken;
  }

  lemma ResetUpdates(cfg: Config, db: Db, req: Request)
    requires req.ResetPassword? && Handle(cfg, db, req).response == PasswordChanged
    ensures req.token in db.resets
    ensures Handle(cfg, db, req).db.users == U.UpdateUserPassword(db.users, db.resets[req.token].user, U.Hash(req.password))
  {
    hide B.Utf8, U.UpdateUserPassword, RevokeAllUserTokens;
  }

  lemma ResetsRemembered(cfg: Config, db: Db, h: seq<Entry>, req: Request, token: string)
    requires Sound(cfg, db, h) && Fresh(db, req)
    ensures var e := Handle(cfg, db, req);
            Resettable(h + [Entry(req, e.response)], token) == UnusedSince(e.db.resets, token)
  {
    var e := Handle(cfg, db, req);
    var h' := h + [Entry(req, e.response)];
    assert h'[..|h'| - 1] == h;
    assert Resettable(h, token) == UnusedSince(db.resets, token);
    if req.ForgotPassword? {
      ForgotMakes(cfg, db, h, req, token);
      hide Handle, Sound, UnusedSince, AccountOf;
    } else if req.ResetPassword? {
      ResetConsumes(cfg, db, req, token);
      hide Handle, Sound, UnusedSince, AccountOf;
    } else {
      OthersKeep(cfg, db, req);
      hide Handle, Sound, UnusedSince, AccountOf;
    }
  }

  lemma ForgotMakes(cfg: Config, db: Db, h: seq<Entry>, req: Request, token: string)
    requires Sound(cfg, db, h) && Fresh(db, req) && req.ForgotPassword?
    ensures UnusedSince(Handle(cfg, db, req).db.resets, token)
            == if token == req.token && AccountOf(h, req.email).Some? then Some(req.now) else UnusedSince(db.resets, token)
  {
    hide Recorded, Truthful, AccountOf;
    assert AccountOf(h, req.email) == IdOf(db.users, req.email);
  }

  lemma ResetConsumes(cfg: Config, db: Db, req: Request, token: string)
    requires req.ResetPassword?
    ensures var e := Handle(cfg, db, req);
            UnusedSince(e.db.resets, token)
            == if token == req.token && (e.response == PasswordChanged || e.response == Refused(500)) then None
               else UnusedSince(db.resets, token)
    ensures var e := Handle(cfg, db, req);
            e.response == PasswordChanged || e.response == Refused(500) ==>
              req.token in db.resets && e.db.resets == db.resets[req.token := db.resets[req.token].(usedAt := Some(req.now))]
  {
    hide U.GenerateHash, U.UpdateUserPassword, RevokeAllUserTokens;
  }

  /** The owner of a stored reset token, by the history. */
  lemma ResetLogsOut(cfg: Config, db: Db, h: seq<Entry>, token: string)
    requires Sound(cfg, db, h) && token in db.resets
    ensures var owner := ResetOwner(h, token);
            owner.Some? && AccountOf(h, owner.value) == Some(db.resets[token].user)
  {
    assert OwnerOf(db, token) == ResetOwner(h, token);
    assert AccountOf(h, ResetOwner(h, token).value) == IdOf(db.users, ResetOwner(h, token).value);
  }

  lemma IssuedRemembered(cfg: Config, db: Db, h: seq<Entry>, req: Request, j: Jti)
    requires Sound(cfg, db, h) && Fresh(db, req) && (req.Signup? || req.Login? || req.Refresh?)
    ensures var e := Handle(cfg, db, req);
            Live(h + [Entry(req, e.response)], j) == Unrevoked(e.db.tokens, j)
  {
    hide AccountsSound, Recorded, U.PgSignup, U.PgLogin, WholeSeconds;
    var e := Handle(cfg, db, req);
    var h' := h + [Entry(req, e.response)];
    assert h'[..|h'| - 1] == h;
    assert Live(h, j) == Unrevoked(db.tokens, j);
  }

  /** What the requests that issue nothing do to the token with one id. */
  lemma RevocationEffect(cfg: Config, db: Db, req: Request, j: Jti)
    requires Truthful(db.tokens) && !(req.Signup? || req.Login? || req.Refresh?)
    ensures var e, was := Handle(cfg, db, req), Unrevoked(db.tokens, j);
            && !e.response.SignedIn? && !e.response.Rotated?
            && (e.response == PasswordChanged ==> req.ResetPassword? && req.token in db.resets)
            && Unrevoked(e.db.tokens, j) ==
               if req.Logout? && e.response == NoContent && req.presented.Some? && req.presented.value.jti == j then None
               else if req.LogoutAll? && e.response == NoContent && was.Some? && was.value.uid == req.user then None
               else if req.ResetPassword? && e.response == PasswordChanged && req.token in db.resets
                       && was.Some? && was.value.uid == db.resets[req.token].user then None
               else was
  {
    hide U.UpdateUserPassword, U.GenerateHash, U.PgGetByEmail, EmailBinds, WholeSeconds;
  }

  lemma RevocationsRemembered(cfg: Config, db: Db, h: seq<Entry>, req: Request, j: Jti)
    requires Sound(cfg, db, h) && Fresh(db, req) && !(req.Signup? || req.Login? || req.Refresh?)
    ensures var e := Handle(cfg, db, req);
            Live(h + [Entry(req, e.response)], j) == Unrevoked(e.db.tokens, j)
  {
    if req.ResetPassword? && req.token in db.resets {
      ResetLogsOut(cfg, db, h, req.token);
    }
    RevocationEffect(cfg, db, req, j);
    assert Live(h, j) == Unrevoked(db.tokens, j);
    hide Handle, Sound, Unrevoked, ResetOwner, AccountOf;
    var h' := h + [Entry(req, Handle(cfg, db, req).response)];
    assert h'[..|h'| - 1] == h;
  }

  lemma StepRemembers(cfg: Config, db: Db, h: seq<Entry>, req: Request)
    requires Sound(cfg, db, h) && Fresh(db, req)
    ensures var e := Handle(cfg, db, req);
            Sound(cfg, e.db, h + [Entry(req, e.response)])
  {
    StepRecorded(cfg, db, h, req);
    HandleKeepsTruthful(cfg, db, req);
    var e := Handle(cfg, db, req);
    var h' := h + [Entry(req, e.response)];
    hide Handle, AccountsSound, Recorded, Truthful, AccountOf, Resettable, Live, IdOf, UnusedSince, Unrevoked;
    forall email
      ensures AccountOf(h', email) == IdOf(e.db.users, email)
    {
      AccountsRemembered(cfg, db, h, req, email);
    }
    forall token
      ensures Resettable(h', token) == UnusedSince(e.db.resets, token)
    {
      ResetsRemembered(cfg, db, h, req, token);
    }
    forall j
      ensures Live(h', j) == Unrevoked(e.db.tokens, j)
    {
      if req.Signup? || req.Login? || req.Refresh? {
        IssuedRemembered(cfg, db, h, req, j);
      } else {
        RevocationsRemembered(cfg, db, h, req, j);
      }
    }
  }

  lemma {:induction false} RunRemembers(cfg: Config, reqs: seq<Request>)
    requires FreshRun(cfg, reqs)
    ensures Sound(cfg, After(cfg, EMPTY, reqs), History(cfg, EMPTY, reqs))
  {
    if reqs == [] {
      RunRecorded(cfg, reqs);
    } else {
      hide Handle, Sound, Fresh;
      var front := reqs[..|reqs| - 1];
      RunRemembers(cfg, front);
      StepRemembers(cfg, After(cfg, EMPTY, front), History(cfg, EMPTY, front), reqs[|reqs| - 1]);
    }
  }

  /** In every run, every answer is the one that the requests and answers before it call for. */
  lemma EveryAnswerByHistory(cfg: Config, reqs: seq<Request>, i: nat)
    requires FreshRun(cfg, reqs) && i < |reqs|
    ensures var h := History(cfg, EMPTY, reqs);
            h[i].response == Answer(cfg, h[..i], reqs[i])
  {
    FreshPrefix(cfg, reqs, i);
    hide Handle, Answer, Sound, Fresh;
    HistoryAt(cfg, EMPTY, reqs, i);
    RunRemembers(cfg, reqs[..i]);
    HandlerAnswers(cfg, After(cfg, EMPTY, reqs[..i]), History(cfg, EMPTY, reqs[..i]), reqs[i]);
  }

  // ---------- Generated values that are not new ----------

  /** What the handlers do when the database refuses a row: a signup keeps the account it made, a rotation keeps the
      old token revoked, and a reset request answers as always. */
  lemma ConflictLaw(cfg: Config, db: Db, req: Request)
    ensures var e := Handle(cfg, db, req);
            match req
            case Signup(email, password, id, jti, _) =>
              if BadCredentials(cfg, email, password) then e == Effect(db, Refused(422))
              else if |B.Utf8(password)| > 72 || exists u | u in db.users :: u.id == id || u.email == email
              then e == Effect(db, Refused(409))
              else && e.db.users == db.users + [U.User(id, email, U.Hash(password))]
                   && (jti in db.tokens ==> e.response == Refused(500) && e.db.tokens == db.tokens)
            case Login(_, _, jti, _) => jti in db.tokens ==> e.db == db && e.response.Refused?
            case Refresh(presented, jti, now) =>
              jti in db.tokens && Accepted(e.response) ==>
                && e.response == Refused(500) && presented.Some? && presented.value.jti in db.tokens
                && e.db == db.(tokens := db.tokens[presented.value.jti := db.tokens[presented.value.jti].(revokedAt := Some(now))])
            case ForgotPassword(_, token, _) => token in db.resets ==> e.db == db
            case _ => true
  {
    hide B.Utf8, B.SameKey, NewRefreshToken;
  }

  // ---------- Logout ----------

  lemma LogoutEffect(cfg: Config, db: Db, req: Request)
    requires req.Logout?
    ensures var e := Handle(cfg, db, req);
            && (e.response == NoContent <==>
                req.presented.Some? && var t := req.presented.value; t.authentic && t.typ == "refresh" && req.now < t.exp)
            && e.db.tokens.Keys == db.tokens.Keys
            && (forall j | j in db.tokens && (e.response != NoContent || j != req.presented.value.jti) :: e.db.tokens[j] == db.tokens[j])
            && (e.response == NoContent && req.presented.value.jti in db.tokens ==>
                  var row := db.tokens[req.presented.value.jti];
                  e.db.tokens[req.presented.value.jti] == if row.revokedAt.None? then row.(revokedAt := Some(req.now)) else row)
  {
  }

  /** A token id with a revoked row is refused in every continuation and gains no successor. */
  lemma RevokedStaysOut(cfg: Config, db: Db, later: seq<Request>, j: Jti)
    requires TokenInv(db) && j in db.tokens && db.tokens[j].revokedAt.Some?
    ensures var end := After(cfg, db, later);
            && (forall req | Presents(req, j) :: Handle(cfg, end, req).response == Refused(401))
            && (forall c | ChildOf(end.tokens, c, j) :: ChildOf(db.tokens, c, j))
  {
    hide Handle, LineageInv, Unbranched;
    RunKeepsTokens(cfg, db, later);
    var end := After(cfg, db, later);
    forall req | Presents(req, j)
      ensures Handle(cfg, end, req).response == Refused(401)
    {
      RevokedIsRefused(cfg, end, req, j);
    }
  }

  lemma RevokedSince(cfg: Config, reqs: seq<Request>, k: nat, i: nat, j: Jti)
    requires k < i <= |reqs|
    requires var t := After(cfg, EMPTY, reqs[..k + 1]).tokens; j in t && t[j].revokedAt.Some?
    ensures forall c | ChildOf(After(cfg, EMPTY, reqs[..i]).tokens, c, j) :: ChildOf(After(cfg, EMPTY, reqs[..k + 1]).tokens, c, j)
    ensures i < |reqs| && Presents(reqs[i], j) ==> History(cfg, EMPTY, reqs)[i].response == Refused(401)
  {
    hide Handle, TokenInv;
    EmptySound();
    RunKeepsTokens(cfg, EMPTY, reqs[..k + 1]);
    RevokedStaysOut(cfg, After(cfg, EMPTY, reqs[..k + 1]), reqs[k + 1..i], j);
    AfterConcat(cfg, EMPTY, reqs[..k + 1], reqs[k + 1..i]);
    assert reqs[..k + 1] + reqs[k + 1..i] == reqs[..i];
    if i < |reqs| {
      HistoryAt(cfg, EMPTY, reqs, i);
    }
  }

  /** The token that a Logout names, if the request is granted. */
  function LoggedOut(cfg: Config, reqs: seq<Request>, k: nat): Option<Jti>
    requires k < |reqs| && reqs[k].Logout?
  {
    if History(cfg, EMPTY, reqs)[k].response == NoContent && reqs[k].presented.Some?
    then Some(reqs[k].presented.value.jti) else None
  }

  /** In every run, a Logout is granted exactly for a presented, authentic, unexpired refresh token, revokes the token
      with that id and changes no other. */
  lemma LogoutRevokes(cfg: Config, reqs: seq<Request>, k: nat)
    requires k < |reqs| && reqs[k].Logout?
    ensures var response, p := History(cfg, EMPTY, reqs)[k].response, reqs[k].presented;
            response == NoContent <==> p.Some? && p.value.authentic && p.value.typ == "refresh" && reqs[k].now < p.value.exp
    ensures var earlier, after := After(cfg, EMPTY, reqs[..k]).tokens, After(cfg, EMPTY, reqs[..k + 1]).tokens;
            && after.Keys == earlier.Keys
            && forall j | j in earlier ::
                 after[j] == if LoggedOut(cfg, reqs, k) == Some(j) && earlier[j].revokedAt.None?
                             then earlier[j].(revokedAt := Some(reqs[k].now)) else earlier[j]
  {
    assert reqs[..k + 1][..k] == reqs[..k];
    LogoutEffect(cfg, After(cfg, EMPTY, reqs[..k]), reqs[k]);
    hide Handle;
    HistoryAt(cfg, EMPTY, reqs, k);
  }

  /** From then on every Refresh with the id of that token is refused, and the token gains no successor. */
  lemma LogoutIsFinal(cfg: Config, reqs: seq<Request>, k: nat, j: Jti)
    requires k < |reqs| && reqs[k].Logout? && LoggedOut(cfg, reqs, k) == Some(j)
    requires j in After(cfg, EMPTY, reqs[..k]).tokens
    ensures forall i | k < i < |reqs| && Presents(reqs[i], j) :: History(cfg, EMPTY, reqs)[i].response == Refused(401)
    ensures forall c | ChildOf(After(cfg, EMPTY, reqs).tokens, c, j) :: ChildOf(After(cfg, EMPTY, reqs[..k + 1]).tokens, c, j)
  {
    LogoutRevokes(cfg, reqs, k);
    hide After, History, Presents, LoggedOut;
    forall i | k < i < |reqs| && Presents(reqs[i], j)
      ensures History(cfg, EMPTY, reqs)[i].response == Refused(401)
    {
      RevokedSince(cfg, reqs, k, i, j);
    }
    RevokedSince(cfg, reqs, k, |reqs|, j);
    assert reqs[..|reqs|] == reqs;
  }

  /** Every token handed out, and the row stored for it, expires ttlDays days after its issue; only the claim is cut to
      whole seconds. */
  lemma TokenLifetime(cfg: Config, db: Db, req: Request)
    requires var r := Handle(cfg, db, req).response; r.SignedIn? || r.Rotated?
    ensures var e := Handle(cfg, db, req);
            var t, due := e.response.jwt, req.now + cfg.ttlDays * 86_400_000_000;
            && t.jti in e.db.tokens && e.db.tokens[t.jti].jwt == t && e.db.tokens[t.jti].expiresAt == due
            && t.exp <= due < t.exp + 1_000_000 && t.exp % 1_000_000 == 0
            && t.jti == req.jti && t.authentic && t.typ == "refresh"
  {
    hide U.PgSignup, U.PgLogin;
  }
}
