/** The auth handlers with each request an atomic step over the users, refresh_tokens and
    password_reset_tokens tables. Generated ids and tokens, and the clock, are inputs of a request. */
module AuthHandlers {
  import opened Common
  import opened RefreshTokens
  import U = Users

  const HOUR: Time := 60 * 60 * SECOND
  const MIN_PASSWORD: nat := 6

  /** The life of a refresh token, and the e-mail format check of the request validator. */
  datatype Config = Config(ttlDays: nat, isEmail: string -> bool)

  /** SHA-256 is injective, so reset tokens are keyed by the plain token. */
  datatype ResetRow = ResetRow(user: UserId, expiresAt: Time, usedAt: Option<Time>)

  type Resets = map<string, ResetRow>

  datatype Db = Db(users: U.Table, tokens: Table, issued: seq<Jti>, resets: Resets)

  const EMPTY: Db := Db([], map[], [], map[])

  datatype Request =
    | Signup(email: U.Email, password: string, id: UserId, jti: Jti, now: Time)
    | Login(email: U.Email, password: string, jti: Jti, now: Time)
    | Refresh(presented: Option<Jwt>, jti: Jti, now: Time) // no token when the field is missing or empty
    | Logout(presented: Option<Jwt>, now: Time)
    | LogoutAll(user: UserId, now: Time)
    | ForgotPassword(email: U.Email, token: string, now: Time)
    | ResetPassword(token: string, password: string, now: Time)

  datatype Response =
    | SignedIn(user: UserId, jwt: Jwt)
    | Rotated(jwt: Jwt)
    | NoContent
    | ResetSent
    | PasswordChanged
    | Refused(status: int)

  datatype Effect = Effect(db: Db, response: Response)

  // ---------- Store operations ----------

  /** SaveRefresh: INSERT under the primary key on the token id. */
  function SaveRefresh(db: Db, uid: UserId, jti: Jti, ttlDays: nat, now: Time, rotatedFrom: Option<Jti>): Option<Db> {
    if jti in db.tokens then None
    else Some(db.(tokens := db.tokens[jti := NewRow(uid, jti, ttlDays, now, rotatedFrom)], issued := db.issued + [jti]))
  }

  /** ValidateAndConsume: the user of a stored, unused, unexpired reset token. */
  function ResetUser(resets: Resets, token: string, now: Time): Option<UserId> {
    if token !in resets || resets[token].usedAt.Some? then None
    else if now > resets[token].expiresAt then None
    else Some(resets[token].user)
  }

  function MarkUsed(resets: Resets, token: string, now: Time): Resets
    requires token in resets
  {
    resets[token := resets[token].(usedAt := Some(now))]
  }

  // ---------- The handlers ----------

  /** The payload checks: required fields, the e-mail format and the length of a password. */
  predicate EmailBinds(cfg: Config, email: U.Email) {
    email != "" && cfg.isEmail(email)
  }

  predicate CredentialsBind(cfg: Config, email: U.Email, password: string) {
    EmailBinds(cfg, email) && |password| >= MIN_PASSWORD
  }

  predicate ResetBinds(token: string, password: string) {
    token != "" && |password| >= MIN_PASSWORD
  }

  function Issue(db: Db, uid: UserId, jti: Jti, ttlDays: nat, now: Time): Effect {
    match SaveRefresh(db, uid, jti, ttlDays, now, None)
    case None => Effect(db, Refused(500))
    case Some(db') => Effect(db', SignedIn(uid, NewRefreshToken(uid, jti, ttlDays, now)))
  }

  function DoRefresh(db: Db, presented: Option<Jwt>, jti: Jti, ttlDays: nat, now: Time): Effect {
    if presented.None? then Effect(db, Refused(422)) else DoRotate(db, presented.value, jti, ttlDays, now)
  }

  function DoRotate(db: Db, jwt: Jwt, jti: Jti, ttlDays: nat, now: Time): Effect {
    if !ParsesAsRefresh(jwt, now) then Effect(db, Refused(401))
    else match IsValid(db.tokens, jwt.jti, jwt, now)
         case None => Effect(db, Refused(401))
         case Some(uid) =>
           var revoked := db.(tokens := RevokeToken(db.tokens, jwt.jti, now));
           match SaveRefresh(revoked, uid, jti, ttlDays, now, Some(jwt.jti))
           case None => Effect(revoked, Refused(500))
           case Some(db') => Effect(db', Rotated(NewRefreshToken(uid, jti, ttlDays, now)))
  }

  function DoReset(db: Db, token: string, password: string, now: Time): Effect {
    if !ResetBinds(token, password) then Effect(db, Refused(422))
    else match ResetUser(db.resets, token, now)
         case None => Effect(db, Refused(401))
         case Some(uid) =>
           var consumed := db.(resets := MarkUsed(db.resets, token, now));
           match U.GenerateHash(password)
           case Err(_) => Effect(consumed, Refused(500))
           case Ok(hash) =>
             Effect(consumed.(users := U.UpdateUserPassword(db.users, uid, hash),
                              tokens := RevokeAllUserTokens(db.tokens, uid, now)), PasswordChanged)
  }

  function DoForgot(db: Db, email: U.Email, token: string, now: Time): Effect {
    match U.PgGetByEmail(db.users, email)
    case Err(_) => Effect(db, ResetSent)
    case Ok(u) =>
      if token in db.resets then Effect(db, ResetSent)
      else Effect(db.(resets := db.resets[token := ResetRow(u.id, now + HOUR, None)]), ResetSent)
  }

  function Handle(cfg: Config, db: Db, req: Request): Effect {
    match req
    case Signup(email, password, id, jti, now) =>
      if !CredentialsBind(cfg, email, password) then Effect(db, Refused(422))
      else var e := U.PgSignup(db.users, id, email, password);
           (match e.result
            case Err(_) => Effect(db, Refused(409))
            case Ok(u) => Issue(db.(users := e.state), u.id, jti, cfg.ttlDays, now))
    case Login(email, password, jti, now) =>
      if !CredentialsBind(cfg, email, password) then Effect(db, Refused(422))
      else (match U.PgLogin(db.users, email, password)
            case Err(_) => Effect(db, Refused(401))
            case Ok(u) => Issue(db, u.id, jti, cfg.ttlDays, now))
    case Refresh(presented, jti, now) => DoRefresh(db, presented, jti, cfg.ttlDays, now)
    case Logout(presented, now) =>
      if presented.None? then Effect(db, Refused(422))
      else if !ParsesAsRefresh(presented.value, now) then Effect(db, Refused(401))
      else Effect(db.(tokens := RevokeToken(db.tokens, presented.value.jti, now)), NoContent)
    case LogoutAll(user, now) =>
      if user == "" then Effect(db, Refused(401))
      else Effect(db.(tokens := RevokeAllUserTokens(db.tokens, user, now)), NoContent)
    case ForgotPassword(email, token, now) =>
      if !EmailBinds(cfg, email) then Effect(db, Refused(422)) else DoForgot(db, email, token, now)
    case ResetPassword(token, password, now) => DoReset(db, token, password, now)
  }

  // ---------- Runs ----------

  datatype Entry = Entry(request: Request, response: Response)

  function After(cfg: Config, db: Db, reqs: seq<Request>): Db {
    if reqs == [] then db
    else Handle(cfg, After(cfg, db, reqs[..|reqs| - 1]), reqs[|reqs| - 1]).db
  }

  /** What was asked and answered, in order. */
  function History(cfg: Config, db: Db, reqs: seq<Request>): (h: seq<Entry>)
    ensures |h| == |reqs|
  {
    if reqs == [] then []
    else var front, last := reqs[..|reqs| - 1], reqs[|reqs| - 1];
         History(cfg, db, front) + [Entry(last, Handle(cfg, After(cfg, db, front), last).response)]
  }

  // ---------- The handlers as they run ----------

  class AuthHandler {
    const cfg: Config
    var users: U.Table
    var tokens: Table
    var resets: Resets
    ghost var issued: seq<Jti>

    ghost function View(): Db
      reads this
    {
      Db(users, tokens, issued, resets)
    }

    constructor (cfg: Config)
      ensures View() == EMPTY && this.cfg == cfg
    {
      this.cfg := cfg;
      users, tokens, resets, issued := [], map[], map[], [];
    }

    method SaveToken(jti: Jti, uid: UserId, jwt: Jwt, expiresAt: Time, rotatedFrom: Option<Jti>) returns (ok: bool)
      modifies this`tokens, this`issued
      ensures ok == (jti !in old(tokens))
      ensures ok ==> tokens == old(tokens)[jti := TokenRow(uid, jwt, expiresAt, None, rotatedFrom)]
      ensures ok ==> issued == old(issued) + [jti]
      ensures !ok ==> tokens == old(tokens) && issued == old(issued)
    {
      ok := jti !in tokens;
      if ok {
        tokens := tokens[jti := TokenRow(uid, jwt, expiresAt, None, rotatedFrom)];
        issued := issued + [jti];
      }
    }

    /** The guarded UPDATE, row by row. */
    method RevokeAllForUser(user: UserId, now: Time)
      modifies this`tokens
      ensures tokens.Keys == old(tokens).Keys
      ensures forall j | j in tokens ::
                var row := old(tokens)[j];
                tokens[j] == if row.user == user && row.revokedAt.None? then row.(revokedAt := Some(now)) else row
      ensures tokens == RevokeAllUserTokens(old(tokens), user, now)
    {
      var todo := tokens.Keys;
      while todo != {}
        invariant todo <= tokens.Keys == old(tokens).Keys
        invariant forall j | j in todo :: tokens[j] == old(tokens)[j]
        invariant forall j | j in tokens && j !in todo :: tokens[j] == RevokeAllUserTokens(old(tokens), user, now)[j]
      {
        var j :| j in todo;
        if tokens[j].user == user && tokens[j].revokedAt.None? {
          tokens := tokens[j := tokens[j].(revokedAt := Some(now))];
        }
        todo := todo - {j};
      }
    }

    method HandleSignup(email: U.Email, password: string, id: UserId, jti: Jti, now: Time) returns (r: Response)
      modifies this
      ensures Effect(View(), r) == Handle(cfg, old(View()), Signup(email, password, id, jti, now))
    {
      if !CredentialsBind(cfg, email, password) {
        return Refused(422);
      }
      var e := U.PgSignup(users, id, email, password);
      if e.result.Err? {
        return Refused(409);
      }
      users := e.state;
      var rt := NewRefreshToken(id, jti, cfg.ttlDays, now);
      var ok := SaveToken(jti, id, rt, Expiry(cfg.ttlDays, now), None);
      if !ok {
        return Refused(500);
      }
      return SignedIn(id, rt);
    }

    method HandleLogin(email: U.Email, password: string, jti: Jti, now: Time) returns (r: Response)
      modifies this`tokens, this`issued
      ensures Effect(View(), r) == Handle(cfg, old(View()), Login(email, password, jti, now))
    {
      if !CredentialsBind(cfg, email, password) {
        return Refused(422);
      }
      var found := U.PgLogin(users, email, password);
      if found.Err? {
        return Refused(401);
      }
      var u := found.value;
      var rt := NewRefreshToken(u.id, jti, cfg.ttlDays, now);
      var ok := SaveToken(jti, u.id, rt, Expiry(cfg.ttlDays, now), None);
      if !ok {
        return Refused(500);
      }
      return SignedIn(u.id, rt);
    }

    method HandleRefresh(presented: Option<Jwt>, jti: Jti, now: Time) returns (r: Response)
      modifies this`tokens, this`issued
      ensures Effect(View(), r) == Handle(cfg, old(View()), Refresh(presented, jti, now))
    {
      if presented.None? {
        return Refused(422);
      }
      var jwt := presented.value;
      if !ParsesAsRefresh(jwt, now) {
        return Refused(401);
      }
      var valid := IsValid(tokens, jwt.jti, jwt, now);
      if valid.None? {
        return Refused(401);
      }
      var uid := valid.value;
      tokens := RevokeToken(tokens, jwt.jti, now);
      var rt := NewRefreshToken(uid, jti, cfg.ttlDays, now);
      var ok := SaveToken(jti, uid, rt, Expiry(cfg.ttlDays, now), Some(jwt.jti));
      if !ok {
        return Refused(500);
      }
      return Rotated(rt);
    }

    method HandleLogout(presented: Option<Jwt>, now: Time) returns (r: Response)
      modifies this`tokens
      ensures Effect(View(), r) == Handle(cfg, old(View()), Logout(presented, now))
    {
      if presented.None? {
        return Refused(422);
      }
      var jwt := presented.value;
      if !ParsesAsRefresh(jwt, now) {
        return Refused(401);
      }
      tokens := RevokeToken(tokens, jwt.jti, now);
      return NoContent;
    }

    method HandleLogoutAll(user: UserId, now: Time) returns (r: Response)
      modifies this`tokens
      ensures Effect(View(), r) == Handle(cfg, old(View()), LogoutAll(user, now))
    {
      if user == "" {
        return Refused(401);
      }
      RevokeAllForUser(user, now);
      return NoContent;
    }

    method HandleForgotPassword(email: U.Email, token: string, now: Time) returns (r: Response)
      modifies this`resets
      ensures Effect(View(), r) == Handle(cfg, old(View()), ForgotPassword(email, token, now))
    {
      if !EmailBinds(cfg, email) {
        return Refused(422);
      }
      var found := U.PgGetByEmail(users, email);
      if found.Ok? && token !in resets {
        resets := resets[token := ResetRow(found.value.id, now + HOUR, None)];
      }
      return ResetSent;
    }

    method HandleResetPassword(token: string, password: string, now: Time) returns (r: Response)
      modifies this`users, this`tokens, this`resets
      ensures Effect(View(), r) == Handle(cfg, old(View()), ResetPassword(token, password, now))
    {
      if !ResetBinds(token, password) {
        return Refused(422);
      }
      if token !in resets || resets[token].usedAt.Some? || now > resets[token].expiresAt {
        return Refused(401);
      }
      var uid := resets[token].user;
      resets := resets[token := resets[token].(usedAt := Some(now))];
      var hash := U.GenerateHash(password);
      if hash.Err? {
        return Refused(500);
      }
      users := U.UpdateUserPassword(users, uid, hash.value);
      RevokeAllForUser(uid, now);
      return PasswordChanged;
    }
  }
}
