/** API keys: the table, the service, and validity as a function of what was created and revoked.
    SHA-256 is injective, so a row's hash is its key. The last-used update that Validate fires off is a
    step of its own. */
module ApiKeys {
  import opened Common

  type OrgId = string
  type UserId = string
  type KeyId = string
  type Time = int

  /** 32 random bytes in hexadecimal. */
  type Random = s: string | |s| == 64 witness seq(64, _ => '0')

  datatype Row = Row(
    id: KeyId, org: OrgId, name: string, prefix: string, key: string, createdBy: UserId, createdAt: Time,
    expiresAt: Option<Time>, lastUsedAt: Option<Time>, revokedAt: Option<Time>)

  datatype ApiKey = ApiKey(
    id: KeyId, org: OrgId, name: string, prefix: string, createdBy: UserId, createdAt: Time,
    expiresAt: Option<Time>, lastUsedAt: Option<Time>)

  datatype CreateResult = CreateResult(apiKey: ApiKey, plaintext: string)

  datatype LookupResult = LookupResult(id: KeyId, org: OrgId)

  /** In the order of insertion. */
  type Table = seq<Row>

  datatype Op =
    | Create(org: OrgId, user: UserId, name: string, expiresAt: Option<Time>, random: Random, id: KeyId, now: Time)
    | Revoke(org: OrgId, id: KeyId, now: Time)
    | Touch(id: KeyId, now: Time)

  function Plaintext(random: Random): (key: string)
    ensures |key| == 67
  {
    "sk_" + random
  }

  function NewRow(op: Op): Row
    requires op.Create?
  {
    var key := Plaintext(op.random);
    Row(op.id, op.org, op.name, key[..12], key, op.user, op.now, op.expiresAt, None, None)
  }

  // ---------- Statements ----------

  predicate Conflicts(t: Table, row: Row) {
    exists r | r in t :: r.id == row.id || r.key == row.key
  }

  /** Revocation asks for the id and its own org, and leaves an earlier revocation alone. */
  function RevokedRow(r: Row, org: OrgId, id: KeyId, now: Time): Row {
    if r.id == id && r.org == org && r.revokedAt.None? then r.(revokedAt := Some(now)) else r
  }

  function TouchedRow(r: Row, id: KeyId, now: Time): Row {
    if r.id == id then r.(lastUsedAt := Some(now)) else r
  }

  function Do(t: Table, op: Op): Table {
    match op
    case Create(_, _, _, _, _, _, _) => if Conflicts(t, NewRow(op)) then t else t + [NewRow(op)]
    case Revoke(org, id, now) => seq(|t|, i requires 0 <= i < |t| => RevokedRow(t[i], org, id, now))
    case Touch(id, now) => seq(|t|, i requires 0 <= i < |t| => TouchedRow(t[i], id, now))
  }

  /** The unrevoked row with that hash. */
  function GetByHash(t: Table, key: string): Option<Row> {
    if t == [] then None
    else if t[0].key == key && t[0].revokedAt.None? then Some(t[0])
    else GetByHash(t[1..], key)
  }

  function Validate(t: Table, key: string, now: Time): Option<LookupResult> {
    match GetByHash(t, key)
    case None => None
    case Some(r) =>
      if r.expiresAt.Some? && r.expiresAt.value < now then None else Some(LookupResult(r.id, r.org))
  }

  function ToApiKey(r: Row): ApiKey {
    ApiKey(r.id, r.org, r.name, r.prefix, r.createdBy, r.createdAt, r.expiresAt, r.lastUsedAt)
  }

  /** The org's unrevoked rows, the last inserted first. */
  function ListRows(t: Table, org: OrgId): seq<Row> {
    if t == [] then []
    else if t[0].org == org && t[0].revokedAt.None? then ListRows(t[1..], org) + [t[0]]
    else ListRows(t[1..], org)
  }

  function ToApiKeys(rows: seq<Row>): (keys: seq<ApiKey>)
    ensures |keys| == |rows|
  {
    seq(|rows|, i requires 0 <= i < |rows| => ToApiKey(rows[i]))
  }

  function ListKeys(t: Table, org: OrgId): seq<ApiKey> {
    ToApiKeys(ListRows(t, org))
  }

  function After(ops: seq<Op>): Table {
    if ops == [] then [] else Do(After(ops[..|ops| - 1]), ops[|ops| - 1])
  }

  // ---------- The service as it runs ----------

  class Service {
    var table: Table

    constructor ()
      ensures table == []
    {
      table := [];
    }

    method CreateKey(org: OrgId, user: UserId, name: string, expiresAt: Option<Time>, random: Random, id: KeyId, now: Time)
      returns (r: Option<CreateResult>)
      modifies this
      ensures table == Do(old(table), Create(org, user, name, expiresAt, random, id, now))
      ensures r.None? <==> exists row | row in old(table) :: row.id == id || row.key == "sk_" + random
      ensures r.Some? ==>
                && r.value.plaintext == "sk_" + random
                && r.value.apiKey == ApiKey(id, org, name, ("sk_" + random)[..12], user, now, expiresAt, None)
                && table == old(table) + [table[|table| - 1]] && ToApiKey(table[|table| - 1]) == r.value.apiKey
    {
      var key := Plaintext(random);
      var row := Row(id, org, name, key[..12], key, user, now, expiresAt, None, None);
      if exists r | r in table :: r.id == row.id || r.key == row.key {
        return None;
      }
      table := table + [row];
      return Some(CreateResult(ApiKey(row.id, row.org, row.name, row.prefix, row.createdBy, row.createdAt, row.expiresAt, None), key));
    }

    /** The guarded UPDATE, row by row. */
    method RevokeKey(org: OrgId, id: KeyId, now: Time)
      modifies this
      ensures |table| == |old(table)|
      ensures forall i | 0 <= i < |table| ::
                var r := old(table)[i];
                if r.id == id && r.org == org && r.revokedAt.None? then table[i] == r.(revokedAt := Some(now)) else table[i] == r
      ensures table == Do(old(table), Revoke(org, id, now))
    {
      for i := 0 to |table|
        invariant |table| == |old(table)|
        invariant forall k | 0 <= k < i :: table[k] == RevokedRow(old(table)[k], org, id, now)
        invariant forall k | i <= k < |table| :: table[k] == old(table)[k]
      {
        var r := table[i];
        if r.id == id && r.org == org && r.revokedAt.None? {
          table := table[i := r.(revokedAt := Some(now))];
        }
      }
    }

    method List(org: OrgId) returns (keys: seq<ApiKey>)
      ensures keys == ListKeys(table, org)
    {
      var rows := ListRows(table, org);
      keys := [];
      for i := 0 to |rows|
        invariant keys == ToApiKeys(rows[..i])
      {
        keys := keys + [ToApiKey(rows[i])];
      }
      assert rows[..|rows|] == rows;
    }

    method ValidateKey(key: string, now: Time) returns (r: Option<LookupResult>)
      ensures r == Validate(table, key, now)
    {
      var row := GetByHash(table, key);
      if row.None? {
        return None;
      }
      if row.value.expiresAt.Some? && row.value.expiresAt.value < now {
        return None;
      }
      return Some(LookupResult(row.value.id, row.value.org));
    }
  }

  // ---------- The history determines the table ----------

  /** A later revocation that names the key together with its own org. */
  function FirstRevoke(later: seq<Op>, org: OrgId, id: KeyId): Option<Time> {
    if later == [] then None
    else if later[0].Revoke? && later[0].org == org && later[0].id == id then Some(later[0].now)
    else FirstRevoke(later[1..], org, id)
  }

  function LastTouch(later: seq<Op>, id: KeyId): Option<Time> {
    if later == [] then None
    else if later[|later| - 1].Touch? && later[|later| - 1].id == id then Some(later[|later| - 1].now)
    else LastTouch(later[..|later| - 1], id)
  }

  /** What a created key's row has become. */
  function RowNow(op: Op, later: seq<Op>): Row
    requires op.Create?
  {
    NewRow(op).(revokedAt := FirstRevoke(later, op.org, op.id), lastUsedAt := LastTouch(later, op.id))
  }

  /** The table according to the history alone. */
  function Expected(ops: seq<Op>): Table {
    if ops == [] then []
    else if ops[0].Create? then [RowNow(ops[0], ops[1..])] + Expected(ops[1..])
    else Expected(ops[1..])
  }

  /** Generated keys and ids are new. */
  predicate DistinctCreates(ops: seq<Op>) {
    forall i, j | 0 <= i < j < |ops| && ops[i].Create? && ops[j].Create? ::
      ops[i].id != ops[j].id && ops[i].random != ops[j].random
  }

  lemma {:induction false} FirstRevokeLater(later: seq<Op>, op: Op, org: OrgId, id: KeyId)
    ensures FirstRevoke(later + [op], org, id)
            == if FirstRevoke(later, org, id).Some? then FirstRevoke(later, org, id)
               else if op.Revoke? && op.org == org && op.id == id then Some(op.now) else None
  {
    if later == [] {
      assert [op][1..] == [];
    } else {
      FirstRevokeLater(later[1..], op, org, id);
      assert (later + [op])[1..] == later[1..] + [op];
    }
  }

  lemma RowNowLater(create: Op, later: seq<Op>, op: Op)
    requires create.Create?
    ensures RowNow(create, later + [op]) == Changed(RowNow(create, later), op)
  {
    FirstRevokeLater(later, op, create.org, create.id);
    assert (later + [op])[..|later|] == later;
  }

  /** What an operation does to the rows that are already there. */
  function Changed(r: Row, op: Op): Row {
    match op
    case Create(_, _, _, _, _, _, _) => r
    case Revoke(org, id, now) => RevokedRow(r, org, id, now)
    case Touch(id, now) => TouchedRow(r, id, now)
  }

  function ChangedRows(t: Table, op: Op): Table {
    if t == [] then [] else [Changed(t[0], op)] + ChangedRows(t[1..], op)
  }

  lemma {:induction false} DoChanges(t: Table, op: Op)
    requires !op.Create?
    ensures Do(t, op) == ChangedRows(t, op)
  {
    if t != [] {
      DoChanges(t[1..], op);
      assert Do(t, op) == [Changed(t[0], op)] + Do(t[1..], op);
    }
  }

  lemma {:induction false} CreateChangesNone(t: Table, op: Op)
    requires op.Create?
    ensures ChangedRows(t, op) == t
  {
    if t != [] {
      CreateChangesNone(t[1..], op);
    }
  }

  /** Appending an operation to the history does to the expected table what the statement does. */
  lemma {:induction false} ExpectedLater(ops: seq<Op>, op: Op)
    ensures Expected(ops + [op]) == ChangedRows(Expected(ops), op) + if op.Create? then [NewRow(op)] else []
    decreases |ops|
  {
    hide Changed;
    if ops == [] {
      assert [op][1..] == [];
      assert Expected([]) == [];
    } else {
      var rest := Expected(ops[1..]);
      ExpectedLater(ops[1..], op);
      assert (ops + [op])[1..] == ops[1..] + [op];
      if ops[0].Create? {
        RowNowLater(ops[0], ops[1..], op);
        assert Expected(ops)[1..] == rest;
      }
    }
  }

  lemma {:induction false} ExpectedOrigin(ops: seq<Op>, r: Row) returns (i: nat)
    requires r in Expected(ops)
    ensures i < |ops| && ops[i].Create? && r == RowNow(ops[i], ops[i + 1..])
  {
    if ops[0].Create? && r == RowNow(ops[0], ops[1..]) {
      i := 0;
    } else {
      var k := ExpectedOrigin(ops[1..], r);
      i := k + 1;
      assert ops[1..][k + 1..] == ops[i + 1..];
    }
  }

  lemma {:induction false} HistoryDeterminesTable(ops: seq<Op>)
    requires DistinctCreates(ops)
    ensures After(ops) == Expected(ops)
  {
    if ops != [] {
      var front, last := ops[..|ops| - 1], ops[|ops| - 1];
      HistoryDeterminesTable(front);
      ExpectedLater(front, last);
      assert front + [last] == ops;
      if last.Create? {
        CreateChangesNone(Expected(front), last);
      } else {
        DoChanges(Expected(front), last);
      }
      if last.Create? && Conflicts(Expected(front), NewRow(last)) {
        var r :| r in Expected(front) && (r.id == last.id || r.key == NewRow(last).key);
        var i := ExpectedOrigin(front, r);
        SameRandom(ops[i].random, last.random);
      }
    }
  }

  lemma SameRandom(a: Random, b: Random)
    ensures Plaintext(a) == Plaintext(b) <==> a == b
  {
    if Plaintext(a) == Plaintext(b) {
      assert a == Plaintext(a)[3..] && b == Plaintext(b)[3..];
    }
  }

  // ---------- Validity and listing by history ----------

  /** The i-th operation created `key`, nobody revoked it since in its own org, and it has not expired before `now`. */
  predicate GrantedBy(ops: seq<Op>, i: int, key: string, now: Time) {
    && 0 <= i < |ops| && ops[i].Create? && Plaintext(ops[i].random) == key
    && FirstRevoke(ops[i + 1..], ops[i].org, ops[i].id).None?
    && (ops[i].expiresAt.None? || ops[i].expiresAt.value >= now)
  }

  lemma {:induction false} FoundByHash(ops: seq<Op>, key: string, i: nat)
    requires DistinctCreates(ops) && i < |ops| && ops[i].Create? && Plaintext(ops[i].random) == key
    ensures GetByHash(Expected(ops), key)
            == if FirstRevoke(ops[i + 1..], ops[i].org, ops[i].id).None? then Some(RowNow(ops[i], ops[i + 1..])) else None
    decreases |ops|
  {
    if i == 0 {
      forall j | 0 <= j < |ops[1..]| && ops[1..][j].Create?
        ensures Plaintext(ops[1..][j].random) != key
      {
        SameRandom(ops[j + 1].random, ops[0].random);
      }
      NotFoundByHash(ops[1..], key);
    } else {
      FoundByHash(ops[1..], key, i - 1);
      assert ops[1..][i - 1..][1..] == ops[i + 1..];
      SameRandom(if ops[0].Create? then ops[0].random else ops[i].random, ops[i].random);
    }
  }

  lemma {:induction false} NotFoundByHash(ops: seq<Op>, key: string)
    requires forall i | 0 <= i < |ops| && ops[i].Create? :: Plaintext(ops[i].random) != key
    ensures GetByHash(Expected(ops), key) == None
  {
    if ops != [] {
      NotFoundByHash(ops[1..], key);
    }
  }

  /** A key validates at a time exactly when some creation made it, no later revocation named it with its own
      org, and it has not expired; the answer names that creation's id and org. */
  lemma ValidByHistory(ops: seq<Op>, key: string, now: Time)
    requires DistinctCreates(ops)
    ensures Validate(After(ops), key, now).Some? <==> exists i :: GrantedBy(ops, i, key, now)
    ensures forall i | GrantedBy(ops, i, key, now) :: Validate(After(ops), key, now) == Some(LookupResult(ops[i].id, ops[i].org))
  {
    HistoryDeterminesTable(ops);
    if c :| 0 <= c < |ops| && ops[c].Create? && Plaintext(ops[c].random) == key {
      FoundByHash(ops, key, c);
      forall i | GrantedBy(ops, i, key, now)
        ensures i == c
      {
        SameRandom(ops[i].random, ops[c].random);
      }
      assert Validate(After(ops), key, now).Some? ==> GrantedBy(ops, c, key, now);
    } else {
      NotFoundByHash(ops, key);
    }
  }

  /** The keys of an org that were created and not revoked since, the last created first, expired ones included. */
  function LiveRows(ops: seq<Op>, org: OrgId): seq<Row> {
    if ops == [] then []
    else if ops[0].Create? && ops[0].org == org && FirstRevoke(ops[1..], org, ops[0].id).None?
    then LiveRows(ops[1..], org) + [RowNow(ops[0], ops[1..])]
    else LiveRows(ops[1..], org)
  }

  lemma {:induction false} ExpectedLists(ops: seq<Op>, org: OrgId)
    ensures ListRows(Expected(ops), org) == LiveRows(ops, org)
  {
    if ops != [] {
      ExpectedLists(ops[1..], org);
      if ops[0].Create? {
        assert Expected(ops)[1..] == Expected(ops[1..]);
      }
    }
  }

  lemma ListedByHistory(ops: seq<Op>, org: OrgId)
    requires DistinctCreates(ops)
    ensures ListKeys(After(ops), org) == ToApiKeys(LiveRows(ops, org))
  {
    HistoryDeterminesTable(ops);
    ExpectedLists(ops, org);
  }

  /** The i-th operation created a key of `org` that nobody revoked since. */
  predicate LiveAt(ops: seq<Op>, i: int, org: OrgId) {
    0 <= i < |ops| && ops[i].Create? && ops[i].org == org && FirstRevoke(ops[i + 1..], org, ops[i].id).None?
  }

  /** How a listing shows the key that the i-th operation created: with its creation data and its latest use. */
  function ShownKey(ops: seq<Op>, i: int): ApiKey
    requires 0 <= i < |ops| && ops[i].Create?
  {
    var op := ops[i];
    ApiKey(op.id, op.org, op.name, ("sk_" + op.random)[..12], op.user, op.now, op.expiresAt, LastTouch(ops[i + 1..], op.id))
  }

  /** Keys are created under a clock that does not run backwards. */
  predicate TimelyCreates(ops: seq<Op>) {
    forall i, j | 0 <= i < j < |ops| && ops[i].Create? && ops[j].Create? :: ops[i].now <= ops[j].now
  }

  lemma {:induction false} LiveRowsAre(ops: seq<Op>, org: OrgId, r: Row)
    ensures r in LiveRows(ops, org) <==> exists i :: LiveAt(ops, i, org) && r == RowNow(ops[i], ops[i + 1..])
  {
    if ops != [] {
      var rest := ops[1..];
      LiveRowsAre(rest, org, r);
      if i :| LiveAt(rest, i, org) && r == RowNow(rest[i], rest[i + 1..]) {
        assert rest[i + 1..] == ops[i + 2..];
        assert LiveAt(ops, i + 1, org);
      }
      if i :| LiveAt(ops, i, org) && r == RowNow(ops[i], ops[i + 1..]) {
        if i > 0 {
          assert rest[i - 1 + 1..] == ops[i + 1..];
          assert LiveAt(rest, i - 1, org);
        }
      }
    }
  }

  lemma {:induction false} LiveRowsDescend(ops: seq<Op>, org: OrgId)
    requires TimelyCreates(ops)
    ensures var rows := LiveRows(ops, org); forall i, j | 0 <= i < j < |rows| :: rows[i].createdAt >= rows[j].createdAt
  {
    if ops != [] {
      LiveRowsDescend(ops[1..], org);
      var rows := LiveRows(ops[1..], org);
      if LiveRows(ops, org) != rows {
        forall k | 0 <= k < |rows|
          ensures rows[k].createdAt >= ops[0].now
        {
          LiveRowsAre(ops[1..], org, rows[k]);
          var i :| LiveAt(ops[1..], i, org) && rows[k] == RowNow(ops[1..][i], ops[1..][i + 1..]);
        }
      }
    }
  }

  /** With a clock that does not run backwards, a listing holds exactly the org's live keys, newest first by the
      creation time it shows. */
  lemma ListedNewestFirst(ops: seq<Op>, org: OrgId)
    requires DistinctCreates(ops) && TimelyCreates(ops)
    ensures var keys := ListKeys(After(ops), org);
            && (forall i, j | 0 <= i < j < |keys| :: keys[i].createdAt >= keys[j].createdAt)
            && (forall i | LiveAt(ops, i, org) :: ShownKey(ops, i) in keys)
            && (forall k | k in keys :: exists i :: LiveAt(ops, i, org) && k == ShownKey(ops, i))
  {
    ListedByHistory(ops, org);
    LiveRowsDescend(ops, org);
    var rows := LiveRows(ops, org);
    var keys := ToApiKeys(rows);
    forall i | LiveAt(ops, i, org)
      ensures ShownKey(ops, i) in keys
    {
      var r := RowNow(ops[i], ops[i + 1..]);
      LiveRowsAre(ops, org, r);
      var n :| 0 <= n < |rows| && rows[n] == r;
      assert keys[n] == ToApiKey(r);
    }
    forall k | k in keys
      ensures exists i :: LiveAt(ops, i, org) && k == ShownKey(ops, i)
    {
      var n :| 0 <= n < |keys| && keys[n] == k;
      LiveRowsAre(ops, org, rows[n]);
    }
  }
}
