/** The refresh_tokens table: its statements, the validity check, and the lineage that rotation builds.
    JWTs are symbolic records; SHA-256 is injective, so a stored hash is the token it was made from. */
module RefreshTokens {
  import opened Common

  type Time = int // microseconds
  type Jti = string
  type UserId = string

  const SECOND: Time := 1_000_000
  const DAY: Time := 24 * 60 * 60 * SECOND

  /** A token as presented: `authentic` says its signature verifies under the refresh secret. */
  datatype Jwt = Jwt(authentic: bool, typ: string, uid: UserId, jti: Jti, exp: Time)

  datatype TokenRow = TokenRow(
    user: UserId, jwt: Jwt, expiresAt: Time, revokedAt: Option<Time>, rotatedFrom: Option<Jti>)

  type Table = map<Jti, TokenRow>

  // ---------- Tokens ----------

  /** The exp claim of a JWT has whole seconds; the table keeps the full time. */
  function WholeSeconds(t: Time): Time {
    t - t % SECOND
  }

  function Expiry(ttlDays: nat, now: Time): Time {
    now + ttlDays * DAY
  }

  function NewRefreshToken(uid: UserId, jti: Jti, ttlDays: nat, now: Time): Jwt {
    Jwt(true, "refresh", uid, jti, WholeSeconds(Expiry(ttlDays, now)))
  }

  /** auth.Parse followed by the check of the token type. */
  predicate ParsesAsRefresh(t: Jwt, now: Time) {
    t.authentic && now < t.exp && t.typ == "refresh"
  }

  // ---------- Statements ----------

  function NewRow(uid: UserId, jti: Jti, ttlDays: nat, now: Time, rotatedFrom: Option<Jti>): TokenRow {
    TokenRow(uid, NewRefreshToken(uid, jti, ttlDays, now), Expiry(ttlDays, now), None, rotatedFrom)
  }

  function Revoked(r: TokenRow, now: Time): TokenRow {
    if r.revokedAt.None? then r.(revokedAt := Some(now)) else r
  }

  function RevokeToken(t: Table, jti: Jti, now: Time): Table {
    if jti in t then t[jti := Revoked(t[jti], now)] else t
  }

  function RevokeAllUserTokens(t: Table, uid: UserId, now: Time): Table {
    map j | j in t :: if t[j].user == uid then Revoked(t[j], now) else t[j]
  }

  /** IsValid: the user of a stored, unrevoked, unexpired token whose hash matches. */
  function IsValid(t: Table, jti: Jti, jwt: Jwt, now: Time): Option<UserId> {
    if jti !in t then None
    else if t[jti].revokedAt.Some? then None
    else if now > t[jti].expiresAt then None
    else if t[jti].jwt != jwt then None
    else Some(t[jti].user)
  }

  // ---------- What every statement respects ----------

  /** Rows are only added, keep all their columns but revoked_at, and stay revoked once revoked. */
  ghost predicate Evolves(t: Table, t': Table) {
    forall j | j in t ::
      && j in t'
      && t'[j] == t[j].(revokedAt := t'[j].revokedAt)
      && (t[j].revokedAt.Some? ==> t'[j].revokedAt == t[j].revokedAt)
  }

  // ---------- Lineage ----------

  predicate ChildOf(t: Table, child: Jti, parent: Jti) {
    child in t && t[child].rotatedFrom == Some(parent)
  }

  /** Each token of the path was rotated from the one before it. */
  predicate IsPath(t: Table, p: seq<Jti>) {
    && p != []
    && (forall i | 0 <= i < |p| :: p[i] in t)
    && (forall i | 0 < i < |p| :: ChildOf(t, p[i], p[i - 1]))
  }

  function Last(p: seq<Jti>): Jti
    requires p != []
  {
    p[|p| - 1]
  }

  predicate Distinct(issued: seq<Jti>) {
    forall i, j | 0 <= i < j < |issued| :: issued[i] != issued[j]
  }

  /** The position of a token in the order of issue. */
  function Rank(issued: seq<Jti>, j: Jti): nat {
    if issued == [] then 0
    else if issued[|issued| - 1] == j then |issued| - 1
    else Rank(issued[..|issued| - 1], j)
  }

  /** The lineage invariant: a token that was rotated into another is revoked, issued before it and has its user. */
  ghost predicate LineageInv(t: Table, issued: seq<Jti>) {
    && t.Keys == (set j | j in issued)
    && Distinct(issued)
    && forall c | c in t && t[c].rotatedFrom.Some? ::
         var p := t[c].rotatedFrom.value;
         && p in t && t[p].revokedAt.Some? && t[p].user == t[c].user
         && Rank(issued, p) < Rank(issued, c)
  }

  ghost predicate Unbranched(t: Table) {
    forall a, b, p | ChildOf(t, a, p) && ChildOf(t, b, p) :: a == b
  }

  // ---------- The statements keep the lineage invariant ----------

  lemma EvolvesTransitively(t: Table, t': Table, t'': Table)
    requires Evolves(t, t') && Evolves(t', t'')
    ensures Evolves(t, t'')
  {
  }

  lemma RevokingKeepsLineage(t: Table, t': Table, issued: seq<Jti>)
    requires LineageInv(t, issued) && Evolves(t, t') && t'.Keys == t.Keys
    ensures LineageInv(t', issued)
    ensures Unbranched(t) ==> Unbranched(t')
  {
    forall c, p | ChildOf(t', c, p)
      ensures ChildOf(t, c, p)
    {
    }
  }

  lemma RankAppended(issued: seq<Jti>, x: Jti, j: Jti)
    ensures Rank(issued + [x], j) == if j == x then |issued| else Rank(issued, j)
  {
    assert (issued + [x])[..|issued|] == issued;
  }

  lemma {:induction false} RankBounded(issued: seq<Jti>, j: Jti)
    requires j in issued
    ensures Rank(issued, j) < |issued| && issued[Rank(issued, j)] == j
  {
    if issued[|issued| - 1] != j {
      RankBounded(issued[..|issued| - 1], j);
    }
  }

  lemma InsertKeepsLineage(t: Table, issued: seq<Jti>, jti: Jti, row: TokenRow)
    requires LineageInv(t, issued) && jti !in t
    requires row.rotatedFrom.Some? ==>
               var p := row.rotatedFrom.value; p in t && t[p].revokedAt.Some? && t[p].user == row.user
    ensures LineageInv(t[jti := row], issued + [jti])
    ensures Evolves(t, t[jti := row])
    ensures Unbranched(t) && (row.rotatedFrom.Some? ==> forall c | c in t :: !ChildOf(t, c, row.rotatedFrom.value))
            ==> Unbranched(t[jti := row])
  {
    var t', issued' := t[jti := row], issued + [jti];
    assert jti !in issued;
    forall c | c in t' && t'[c].rotatedFrom.Some?
      ensures var p := t'[c].rotatedFrom.value;
              p in t' && t'[p].revokedAt.Some? && t'[p].user == t'[c].user && Rank(issued', p) < Rank(issued', c)
    {
      var p := t'[c].rotatedFrom.value;
      RankAppended(issued, jti, p);
      RankAppended(issued, jti, c);
      RankBounded(issued, p);
    }
    forall c, p | ChildOf(t', c, p) && c != jti
      ensures ChildOf(t, c, p)
    {
    }
  }

  // ---------- What the lineage invariant means for whole paths ----------

  lemma {:induction false} PathAscends(t: Table, issued: seq<Jti>, p: seq<Jti>)
    requires LineageInv(t, issued) && IsPath(t, p)
    ensures t[p[0]].user == t[Last(p)].user
    ensures |p| >= 2 ==> Rank(issued, p[0]) < Rank(issued, Last(p))
    ensures forall i | 0 <= i < |p| - 1 :: t[p[i]].revokedAt.Some?
    decreases |p|
  {
    if |p| >= 2 {
      var front := p[..|p| - 1];
      PathAscends(t, issued, front);
      assert ChildOf(t, p[|p| - 1], p[|p| - 2]);
    }
  }

  /** Every token comes down from a login by rotation. */
  lemma {:induction false} LoginOf(t: Table, issued: seq<Jti>, j: Jti) returns (p: seq<Jti>)
    requires LineageInv(t, issued) && j in t
    ensures IsPath(t, p) && Last(p) == j && t[p[0]].rotatedFrom.None?
    decreases Rank(issued, j)
  {
    if t[j].rotatedFrom.None? {
      p := [j];
    } else {
      var up := LoginOf(t, issued, t[j].rotatedFrom.value);
      p := up + [j];
    }
  }

  /** Without branching, paths from one token are prefixes of each other. */
  lemma {:induction false} PathsNest(t: Table, p: seq<Jti>, q: seq<Jti>)
    requires Unbranched(t) && IsPath(t, p) && IsPath(t, q) && p[0] == q[0] && |p| <= |q|
    ensures p <= q
    decreases |p|
  {
    if |p| >= 2 {
      var k := |p| - 1;
      PathsNest(t, p[..k], q);
      assert ChildOf(t, p[k], p[k - 1]) && ChildOf(t, q[k], q[k - 1]);
      assert p[k - 1] == p[..k][k - 1] == q[k - 1];
    }
  }

  lemma PathStep(t: Table, p: seq<Jti>, i: nat)
    requires IsPath(t, p) && 0 < i < |p|
    ensures p[i] in t && ChildOf(t, p[i], p[i - 1])
  {
  }

  /** The whole chain below a token, built by following rotations to the end. */
  lemma {:induction false} ExtendChain(t: Table, issued: seq<Jti>, p: seq<Jti>) returns (chain: seq<Jti>)
    requires LineageInv(t, issued) && IsPath(t, p)
    ensures IsPath(t, chain) && p <= chain
    ensures forall c | c in t :: !ChildOf(t, c, Last(chain))
    decreases |issued| - Rank(issued, Last(p))
  {
    RankBounded(issued, Last(p));
    if c :| c in t && ChildOf(t, c, Last(p)) {
      RankBounded(issued, c);
      chain := ExtendChain(t, issued, p + [c]);
    } else {
      chain := p;
    }
  }

  /** The tokens descending from one token form a single unbranched chain in which at most the last is unrevoked. */
  lemma SingleChainBelow(t: Table, issued: seq<Jti>, j: Jti) returns (chain: seq<Jti>)
    requires LineageInv(t, issued) && Unbranched(t) && j in t
    ensures IsPath(t, chain) && chain[0] == j
    ensures forall q | IsPath(t, q) && q[0] == j :: q <= chain
    ensures forall i | 0 <= i < |chain| - 1 :: t[chain[i]].revokedAt.Some?
  {
    chain := ExtendChain(t, issued, [j]);
    PathAscends(t, issued, chain);
    forall q | IsPath(t, q) && q[0] == j
      ensures q <= chain
    {
      if |q| > |chain| {
        PathStep(t, q, |chain|);
        PathsNest(t, chain, q); // so q goes on below the end of the chain
      } else {
        PathsNest(t, q, chain);
      }
    }
  }
}
