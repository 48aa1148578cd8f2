/** User accounts: the table-backed service and the in-memory one with its two indexes.
    bcrypt is an ideal check of the 72 bytes that key its cipher; it refuses to hash longer passwords. */
module Users {
  import opened Common
  import opened Bcrypt

  type UserId = string
  type Email = string

  datatype Error = EmailInUse | InvalidLogin | NotFound | TooLong | Conflict

  datatype Result<+T> = Ok(value: T) | Err(error: Error)

  /** The empty hash is what the in-memory service stores when bcrypt refuses. */
  datatype Hash = EmptyHash | Hash(password: string)

  datatype User = User(id: UserId, email: Email, hash: Hash)

  function GenerateHash(password: string): Result<Hash> {
    if |Utf8(password)| > BCRYPT_LIMIT then Err(TooLong) else Ok(Hash(password))
  }

  /** An ideal check of the key bytes. Unlike hashing, comparing refuses no length. */
  predicate HashMatches(h: Hash, password: string) {
    h.Hash? && SameKey(h.password, password)
  }

  // ---------- The users table ----------

  type Table = seq<User>

  predicate Unique(t: Table) {
    forall u, v | u in t && v in t && (u.id == v.id || u.email == v.email) :: u == v
  }

  function GetUserByEmail(t: Table, email: Email): (r: Option<User>)
    ensures r.Some? ==> r.value in t && r.value.email == email
    ensures r.None? ==> forall u | u in t :: u.email != email
  {
    if t == [] then None else if t[0].email == email then Some(t[0]) else GetUserByEmail(t[1..], email)
  }

  function GetUserByID(t: Table, id: UserId): (r: Option<User>)
    ensures r.Some? ==> r.value in t && r.value.id == id
    ensures r.None? ==> forall u | u in t :: u.id != id
  {
    if t == [] then None else if t[0].id == id then Some(t[0]) else GetUserByID(t[1..], id)
  }

  /** INSERT under the primary key on id and the unique constraint on email. */
  function InsertUser(t: Table, u: User): Option<Table> {
    if GetUserByID(t, u.id).Some? || GetUserByEmail(t, u.email).Some? then None else Some(t + [u])
  }

  function UpdateUserPassword(t: Table, id: UserId, hash: Hash): (t': Table)
    ensures |t'| == |t|
  {
    seq(|t|, i requires 0 <= i < |t| => WithHash(t[i], id, hash))
  }

  function WithHash(u: User, id: UserId, hash: Hash): User {
    if u.id == id then u.(hash := hash) else u
  }

  lemma UpdatedFrom(t: Table, id: UserId, hash: Hash, u: User) returns (v: User)
    requires u in UpdateUserPassword(t, id, hash)
    ensures v in t && u == WithHash(v, id, hash)
  {
    var t' := UpdateUserPassword(t, id, hash);
    var i :| 0 <= i < |t'| && t'[i] == u;
    v := t[i];
  }

  lemma UpdatedTo(t: Table, id: UserId, hash: Hash, u: User)
    requires u in t
    ensures WithHash(u, id, hash) in UpdateUserPassword(t, id, hash)
  {
    var i :| 0 <= i < |t| && t[i] == u;
    assert UpdateUserPassword(t, id, hash)[i] == WithHash(u, id, hash);
  }

  lemma UpdateKeepsUnique(t: Table, id: UserId, hash: Hash)
    requires Unique(t)
    ensures Unique(UpdateUserPassword(t, id, hash))
  {
    var t' := UpdateUserPassword(t, id, hash);
    forall u, v | u in t' && v in t' && (u.id == v.id || u.email == v.email)
      ensures u == v
    {
      var u0 := UpdatedFrom(t, id, hash, u);
      var v0 := UpdatedFrom(t, id, hash, v);
    }
  }

  lemma {:induction false} FindAppended(t: Table, u: User, email: Email, id: UserId)
    ensures GetUserByEmail(t + [u], email)
            == if GetUserByEmail(t, email).Some? then GetUserByEmail(t, email) else if u.email == email then Some(u) else None
    ensures GetUserByID(t + [u], id)
            == if GetUserByID(t, id).Some? then GetUserByID(t, id) else if u.id == id then Some(u) else None
  {
    if t == [] {
      assert [u][1..] == [];
    } else {
      FindAppended(t[1..], u, email, id);
      assert (t + [u])[1..] == t[1..] + [u];
    }
  }

  lemma {:induction false} FindUpdated(t: Table, id: UserId, hash: Hash, email: Email, k: UserId)
    ensures var t' := UpdateUserPassword(t, id, hash);
            && GetUserByEmail(t', email)
               == (match GetUserByEmail(t, email) case None => None case Some(u) => Some(WithHash(u, id, hash)))
            && GetUserByID(t', k)
               == (match GetUserByID(t, k) case None => None case Some(u) => Some(WithHash(u, id, hash)))
  {
    if t != [] {
      FindUpdated(t[1..], id, hash, email, k);
      assert UpdateUserPassword(t, id, hash)[1..] == UpdateUserPassword(t[1..], id, hash);
    }
  }

  // ---------- The table-backed service ----------

  datatype Effect<S, T> = Effect(state: S, result: Result<T>)

  function PgSignup(t: Table, id: UserId, email: Email, password: string): Effect<Table, User> {
    match GenerateHash(password)
    case Err(e) => Effect(t, Err(e))
    case Ok(hash) =>
      var u := User(id, email, hash);
      match InsertUser(t, u)
      case None => Effect(t, Err(Conflict))
      case Some(t') => Effect(t', Ok(u))
  }

  function PgLogin(t: Table, email: Email, password: string): Result<User> {
    match GetUserByEmail(t, email)
    case None => Err(InvalidLogin)
    case Some(u) => if HashMatches(u.hash, password) then Ok(u) else Err(InvalidLogin)
  }

  function PgGetByID(t: Table, id: UserId): Result<User> {
    match GetUserByID(t, id) case None => Err(NotFound) case Some(u) => Ok(u)
  }

  function PgGetByEmail(t: Table, email: Email): Result<User> {
    match GetUserByEmail(t, email) case None => Err(NotFound) case Some(u) => Ok(u)
  }

  // ---------- Operations and runs of the table-backed service ----------

  datatype Op =
    | Signup(id: UserId, email: Email, password: string)
    | Login(email: Email, password: string)
    | GetByID(id: UserId)
    | GetByEmail(email: Email)
    | UpdatePassword(id: UserId, hash: Hash)

  /** An update returns no user; the id and hash it was given stand in for it. */
  function PgDo(t: Table, op: Op): Effect<Table, User> {
    match op
    case Signup(id, email, password) => PgSignup(t, id, email, password)
    case Login(email, password) => Effect(t, PgLogin(t, email, password))
    case GetByID(id) => Effect(t, PgGetByID(t, id))
    case GetByEmail(email) => Effect(t, PgGetByEmail(t, email))
    case UpdatePassword(id, hash) => Effect(UpdateUserPassword(t, id, hash), Ok(User(id, "", hash)))
  }

  /** What the table-backed service answers and does, told through the rows of its table. */
  ghost predicate AnswersByRows(t: Table, op: Op, t': Table, r: Result<User>) {
    match op
    case Signup(id, email, password) =>
      var u := User(id, email, Hash(password));
      if |Utf8(password)| <= 72 && forall v | v in t :: v.email != email then r == Ok(u) && t' == t + [u] else r.Err? && t' == t
    case Login(email, password) =>
      t' == t && forall u :: r == Ok(u) <==> u in t && u.email == email && u.hash.Hash? && SameKey(u.hash.password, password)
    case GetByID(id) => t' == t && forall u :: r == Ok(u) <==> u in t && u.id == id
    case GetByEmail(email) => t' == t && forall u :: r == Ok(u) <==> u in t && u.email == email
    case UpdatePassword(id, hash) =>
      r.Ok? && |t'| == |t| && forall i | 0 <= i < |t| :: t'[i] == if t[i].id == id then User(id, t[i].email, hash) else t[i]
  }

  lemma TableAnswers(t: Table, op: Op)
    requires Unique(t) && Fresh(t, op)
    ensures AnswersByRows(t, op, PgDo(t, op).state, PgDo(t, op).result)
    ensures Unique(PgDo(t, op).state)
  {
    hide Utf8, SameKey;
    if op.UpdatePassword? {
      UpdateKeepsUnique(t, op.id, op.hash);
    }
  }

  // ---------- The in-memory service ----------

  datatype Memory = Memory(byID: map<UserId, User>, byEmail: map<Email, UserId>)

  /** The two indexes are inverse to each other. */
  ghost predicate Inverse(m: Memory) {
    && (forall e | e in m.byEmail :: m.byEmail[e] in m.byID && m.byID[m.byEmail[e]].email == e)
    && (forall id | id in m.byID ::
          && m.byID[id].id == id
          && m.byID[id].email in m.byEmail && m.byEmail[m.byID[id].email] == id)
  }

  /** Go's map access: a missing id gives the zero user. */
  function UserOrZero(m: Memory, id: UserId): User {
    if id in m.byID then m.byID[id] else User("", "", EmptyHash)
  }

  function MemDo(m: Memory, op: Op): Effect<Memory, User> {
    match op
    case Signup(id, email, password) =>
      if email in m.byEmail then Effect(m, Err(EmailInUse))
      else var u := User(id, email, if GenerateHash(password).Ok? then GenerateHash(password).value else EmptyHash);
           Effect(Memory(m.byID[id := u], m.byEmail[email := id]), Ok(u))
    case Login(email, password) =>
      if email !in m.byEmail then Effect(m, Err(InvalidLogin))
      else var u := UserOrZero(m, m.byEmail[email]);
           Effect(m, if HashMatches(u.hash, password) then Ok(u) else Err(InvalidLogin))
    case GetByID(id) => Effect(m, if id in m.byID then Ok(m.byID[id]) else Err(NotFound))
    case GetByEmail(email) =>
      Effect(m, if email in m.byEmail then Ok(UserOrZero(m, m.byEmail[email])) else Err(NotFound))
    case UpdatePassword(id, hash) =>
      if id !in m.byID then Effect(m, Err(NotFound))
      else Effect(m.(byID := m.byID[id := m.byID[id].(hash := hash)]), Ok(User(id, "", hash)))
  }

  class MemoryRepo {
    var byID: map<UserId, User>
    var byEmail: map<Email, UserId>

    ghost function View(): Memory
      reads this
    {
      Memory(byID, byEmail)
    }

    constructor ()
      ensures View() == Memory(map[], map[]) && Inverse(View())
    {
      byID, byEmail := map[], map[];
    }

    method Signup(email: Email, password: string, id: UserId) returns (r: Result<User>)
      requires Inverse(View()) && id !in byID
      modifies this
      ensures Inverse(View())
      ensures Effect(View(), r) == MemDo(old(View()), Op.Signup(id, email, password))
      ensures if email in old(byEmail) then r == Err(EmailInUse) && View() == old(View())
              else var u := User(id, email, if |Utf8(password)| <= 72 then Hash(password) else EmptyHash);
                   r == Ok(u) && byID == old(byID)[id := u] && byEmail == old(byEmail)[email := id]
    {
      if email in byEmail {
        return Err(EmailInUse);
      }
      var generated := GenerateHash(password);
      var hash := if generated.Ok? then generated.value else EmptyHash;
      var u := User(id, email, hash);
      byID := byID[id := u];
      byEmail := byEmail[email := id];
      return Ok(u);
    }

    method Login(email: Email, password: string) returns (r: Result<User>)
      ensures Effect(View(), r) == MemDo(View(), Op.Login(email, password))
      ensures r == if email in byEmail && byEmail[email] in byID && HashMatches(byID[byEmail[email]].hash, password)
                   then Ok(byID[byEmail[email]]) else Err(InvalidLogin)
    {
      if email !in byEmail {
        return Err(InvalidLogin);
      }
      var u := UserOrZero(Memory(byID, byEmail), byEmail[email]);
      if !HashMatches(u.hash, password) {
        return Err(InvalidLogin);
      }
      return Ok(u);
    }

    method GetByEmail(email: Email) returns (r: Result<User>)
      ensures Effect(View(), r) == MemDo(View(), Op.GetByEmail(email))
      ensures email !in byEmail ==> r == Err(NotFound)
      ensures email in byEmail && byEmail[email] in byID ==> r == Ok(byID[byEmail[email]])
    {
      if email !in byEmail {
        return Err(NotFound);
      }
      return Ok(UserOrZero(Memory(byID, byEmail), byEmail[email]));
    }

    method GetByID(id: UserId) returns (r: Result<User>)
      ensures Effect(View(), r) == MemDo(View(), Op.GetByID(id))
    {
      if id !in byID {
        return Err(NotFound);
      }
      return Ok(byID[id]);
    }

    method UpdatePassword(userID: UserId, newPasswordHash: Hash) returns (r: Result<User>)
      requires Inverse(View())
      modifies this`byID
      ensures Inverse(View())
      ensures Effect(View(), r) == MemDo(old(View()), Op.UpdatePassword(userID, newPasswordHash))
      ensures if userID !in old(byID) then r == Err(NotFound) && byID == old(byID)
              else r.Ok? && byID == old(byID)[userID := old(byID)[userID].(hash := newPasswordHash)]
    {
      if userID !in byID {
        return Err(NotFound);
      }
      var u := byID[userID];
      u := u.(hash := newPasswordHash);
      byID := byID[userID := u];
      return Ok(User(userID, "", newPasswordHash));
    }
  }

  // ---------- The two services agree ----------

  /** The memory holds exactly the rows of the table. */
  ghost predicate Mirrors(m: Memory, t: Table) {
    && Inverse(m) && Unique(t)
    && (forall u | u in t :: u.id in m.byID && m.byID[u.id] == u)
    && (forall id | id in m.byID :: m.byID[id] in t)
  }

  /** Equal up to the identity of the error value. */
  predicate SameOutcome(a: Result<User>, b: Result<User>) {
    a == b || (a.Err? && b.Err?)
  }

  /** What separates the services: bcrypt's refusal, which the memory ignores, and updates of unknown users,
      which the table ignores. */
  predicate Compatible(t: Table, op: Op) {
    match op
    case Signup(_, email, password) => |Utf8(password)| <= BCRYPT_LIMIT || GetUserByEmail(t, email).Some?
    case UpdatePassword(id, _) => GetUserByID(t, id).Some?
    case _ => true
  }

  /** Generated ids are new. */
  predicate Fresh(t: Table, op: Op) {
    op.Signup? ==> GetUserByID(t, op.id).None?
  }

  lemma LookupsMirror(m: Memory, t: Table, email: Email, id: UserId)
    requires Mirrors(m, t)
    ensures GetUserByEmail(t, email) == if email in m.byEmail then Some(UserOrZero(m, m.byEmail[email])) else None
    ensures GetUserByID(t, id) == if id in m.byID then Some(m.byID[id]) else None
  {
    if email in m.byEmail {
      assert UserOrZero(m, m.byEmail[email]) in t;
    }
  }

  lemma AppendKeepsUnique(t: Table, u: User)
    requires Unique(t) && forall v | v in t :: v.id != u.id && v.email != u.email
    ensures Unique(t + [u])
  {
  }

  lemma AddKeepsInverse(m: Memory, u: User)
    requires Inverse(m) && u.id !in m.byID && u.email !in m.byEmail
    ensures Inverse(Memory(m.byID[u.id := u], m.byEmail[u.email := u.id]))
  {
  }

  lemma AppendMirrors(m: Memory, t: Table, u: User)
    requires Mirrors(m, t) && u.id !in m.byID && u.email !in m.byEmail
    ensures Mirrors(Memory(m.byID[u.id := u], m.byEmail[u.email := u.id]), t + [u])
  {
    AddKeepsInverse(m, u);
    forall v | v in t
      ensures v.id != u.id && v.email != u.email
    {
      assert m.byID[v.id] == v;
    }
    AppendKeepsUnique(t, u);
    hide Inverse, Unique;
  }

  lemma SignupMirrors(m: Memory, t: Table, op: Op)
    requires Mirrors(m, t) && op.Signup? && Fresh(t, op) && Compatible(t, op)
    ensures Mirrors(MemDo(m, op).state, PgDo(t, op).state)
  {
    hide Utf8, SameKey;
    LookupsMirror(m, t, op.email, op.id);
    hide Mirrors;
    if op.email !in m.byEmail {
      AppendMirrors(m, t, User(op.id, op.email, Hash(op.password)));
    }
  }

  lemma UpdateKeepsInverse(m: Memory, id: UserId, hash: Hash)
    requires Inverse(m) && id in m.byID
    ensures Inverse(m.(byID := m.byID[id := m.byID[id].(hash := hash)]))
    ensures m.byID[id].id == id
  {
  }

  lemma UpdateMirrors(m: Memory, t: Table, id: UserId, hash: Hash)
    requires Mirrors(m, t) && id in m.byID
    ensures Mirrors(m.(byID := m.byID[id := m.byID[id].(hash := hash)]), UpdateUserPassword(t, id, hash))
  {
    UpdateKeepsUnique(t, id, hash);
    UpdateKeepsInverse(m, id, hash);
    assert forall k | k in m.byID :: m.byID[k].id == k;
    hide Inverse, Unique, UpdateUserPassword;
    var m', t' := m.(byID := m.byID[id := m.byID[id].(hash := hash)]), UpdateUserPassword(t, id, hash);
    forall u | u in t'
      ensures u.id in m'.byID && m'.byID[u.id] == u
    {
      var v := UpdatedFrom(t, id, hash, u);
      assert m.byID[v.id] == v;
    }
    forall k | k in m'.byID
      ensures m'.byID[k] in t'
    {
      UpdatedTo(t, id, hash, m.byID[k]);
      assert m'.byID[k] == WithHash(m.byID[k], id, hash);
    }
  }

  /** The services answer one operation alike exactly when it is compatible, and then stay mirrored. */
  lemma StepMirrors(m: Memory, t: Table, op: Op)
    requires Mirrors(m, t) && Fresh(t, op)
    ensures SameOutcome(MemDo(m, op).result, PgDo(t, op).result) <==> Compatible(t, op)
    ensures Compatible(t, op) ==> Mirrors(MemDo(m, op).state, PgDo(t, op).state)
  {
    hide Utf8, SameKey;
    if op.Signup? || op.GetByID? || op.UpdatePassword? {
      LookupsMirror(m, t, "", op.id);
    }
    if op.Signup? || op.Login? || op.GetByEmail? {
      LookupsMirror(m, t, op.email, "");
    }
    hide Mirrors, Unique, Inverse;
    if op.Signup? && Compatible(t, op) {
      SignupMirrors(m, t, op);
    } else if op.UpdatePassword? && Compatible(t, op) {
      UpdateMirrors(m, t, op.id, op.hash);
    }
  }

  predicate AllFresh(t: Table, ops: seq<Op>)
    decreases |ops|
  {
    ops == [] || (Fresh(t, ops[0]) && AllFresh(PgDo(t, ops[0]).state, ops[1..]))
  }

  predicate AllCompatible(t: Table, ops: seq<Op>)
    decreases |ops|
  {
    ops == [] || (Compatible(t, ops[0]) && AllCompatible(PgDo(t, ops[0]).state, ops[1..]))
  }

  /** Every result of a run is the same, up to errors, as that of the table-backed service. */
  predicate RunsAgree(m: Memory, t: Table, ops: seq<Op>)
    decreases |ops|
  {
    ops == [] ||
    (SameOutcome(MemDo(m, ops[0]).result, PgDo(t, ops[0]).result)
     && RunsAgree(MemDo(m, ops[0]).state, PgDo(t, ops[0]).state, ops[1..]))
  }

  lemma {:induction false} MirroredRunsAgree(m: Memory, t: Table, ops: seq<Op>)
    requires Mirrors(m, t) && AllFresh(t, ops)
    ensures RunsAgree(m, t, ops) <==> AllCompatible(t, ops)
    decreases |ops|
  {
    hide Mirrors, Compatible, Fresh, SameOutcome, MemDo, PgDo;
    if ops != [] {
      StepMirrors(m, t, ops[0]);
      if Compatible(t, ops[0]) {
        MirroredRunsAgree(MemDo(m, ops[0]).state, PgDo(t, ops[0]).state, ops[1..]);
      }
    }
  }

  /** Run from empty, the two services give the same results exactly when no unused address signs up with a
      password of more than 72 bytes and no unknown user's password is updated. */
  lemma IndexAgreement(ops: seq<Op>)
    requires AllFresh([], ops)
    ensures RunsAgree(Memory(map[], map[]), [], ops) <==> AllCompatible([], ops)
  {
    MirroredRunsAgree(Memory(map[], map[]), [], ops);
  }

  /** The condition can fail: one signup with an over-long password separates the services. */
  lemma LongPasswordSeparates(id: UserId, email: Email, password: string)
    requires |Utf8(password)| > 72
    ensures !RunsAgree(Memory(map[], map[]), [], [Signup(id, email, password)])
  {
    var ops := [Signup(id, email, password)];
    assert ops[1..] == [];
    IndexAgreement(ops);
  }

  /** So does one update of a user that does not exist. */
  lemma UnknownUpdateSeparates(ops: seq<Op>, id: UserId, hash: Hash)
    requires AllFresh([], ops) && GetUserByID(PgRun([], ops), id).None?
    ensures !RunsAgree(Memory(map[], map[]), [], ops + [UpdatePassword(id, hash)])
  {
    hide PgDo;
    AllFreshOn([], ops, UpdatePassword(id, hash));
    IndexAgreement(ops + [UpdatePassword(id, hash)]);
  }

  function PgRun(t: Table, ops: seq<Op>): Table
    decreases |ops|
  {
    if ops == [] then t else PgRun(PgDo(t, ops[0]).state, ops[1..])
  }

  lemma {:induction false} AllFreshOn(t: Table, ops: seq<Op>, op: Op)
    requires AllFresh(t, ops) && !op.Signup?
    ensures AllFresh(t, ops + [op])
    ensures !Compatible(PgRun(t, ops), op) ==> !AllCompatible(t, ops + [op])
    decreases |ops|
  {
    hide PgDo, Compatible;
    if ops == [] {
      assert ([op])[1..] == [];
    } else {
      AllFreshOn(PgDo(t, ops[0]).state, ops[1..], op);
      assert (ops + [op])[1..] == ops[1..] + [op];
    }
  }

  function MemRun(m: Memory, ops: seq<Op>): Memory
    decreases |ops|
  {
    if ops == [] then m else MemRun(MemDo(m, ops[0]).state, ops[1..])
  }

  predicate MemFresh(m: Memory, ops: seq<Op>)
    decreases |ops|
  {
    ops == [] || ((ops[0].Signup? ==> ops[0].id !in m.byID) && MemFresh(MemDo(m, ops[0]).state, ops[1..]))
  }

  /** In every reachable state the two indexes are inverse to each other, over-long passwords or not. */
  lemma {:induction false} IndexesStayInverse(m: Memory, ops: seq<Op>)
    requires Inverse(m) && MemFresh(m, ops)
    ensures Inverse(MemRun(m, ops))
    decreases |ops|
  {
    hide Utf8, SameKey;
    if ops != [] {
      IndexesStayInverse(MemDo(m, ops[0]).state, ops[1..]);
    }
  }
}
