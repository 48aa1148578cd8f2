/** Paginated reads: the audit listing and the file listing, with the clamps of handler and service, Go's
    64-bit int arithmetic and the conversion of limit and offset to int32 for the query. */
module Paging {
  import opened Common
  import opened Projects

  const TWO_31: int := 0x8000_0000
  const TWO_63: int := 0x8000_0000_0000_0000

  /** Go's conversion to int32: two's-complement wrap-around. */
  function ToInt32(x: int): (w: int)
    ensures -TWO_31 <= w < TWO_31 && (x - w) % 0x1_0000_0000 == 0
    decreases if x >= TWO_31 then x else if x < -TWO_31 then -x else 0
  {
    if x >= TWO_31 then ToInt32(x - 2 * TWO_31) else if x < -TWO_31 then ToInt32(x + 2 * TWO_31) else x
  }

  /** The wrap-around of 64-bit int arithmetic. */
  function ToInt64(x: int): (w: int)
    ensures -TWO_63 <= w < TWO_63 && (x - w) % 0x1_0000_0000_0000_0000 == 0
    decreases if x >= TWO_63 then x else if x < -TWO_63 then -x else 0
  {
    if x >= TWO_63 then ToInt64(x - 2 * TWO_63) else if x < -TWO_63 then ToInt64(x + 2 * TWO_63) else x
  }

  type Int64 = x: int | -TWO_63 <= x < TWO_63

  /** A query parameter as strconv.Atoi sees it. */
  datatype Param = Absent | Malformed | Number(n: Int64)

  function ParseInt(p: Param, default: int): int {
    if p.Number? then p.n else default
  }

  // ---------- The audit query ----------

  datatype Filter = Filter(
    org: OrgId, actor: Option<UserId>, action: Option<string>, entity: Option<string>,
    since: Option<Time>, until: Option<Time>)

  predicate Matches(e: Event, f: Filter) {
    && e.org == f.org
    && (f.actor.None? || e.actor == f.actor.value)
    && (f.action.None? || e.action == f.action.value)
    && (f.entity.None? || e.entity == f.entity.value)
    && (f.since.None? || e.timestamp >= f.since.value)
    && (f.until.None? || e.timestamp <= f.until.value)
  }

  /** A time parameter as time.Parse sees it; one that does not parse is ignored. */
  datatype TimeParam = NoTime | BadTime | At(t: Time)

  /** The query string of the audit listing; an empty string is an absent parameter. */
  datatype AuditQuery = AuditQuery(
    page: Param, size: Param, actor: string, action: string, entity: string, since: TimeParam, until: TimeParam)

  function TimeOf(p: TimeParam): Option<Time> {
    if p.At? then Some(p.t) else None
  }

  /** The filter that a query string asks for. */
  function FilterOf(org: OrgId, q: AuditQuery): (f: Filter)
    ensures forall e: Event ::
              Matches(e, f) <==>
              && e.org == org && (q.actor in {"", e.actor}) && (q.action in {"", e.action}) && (q.entity in {"", e.entity})
              && (q.since.At? ==> q.since.t <= e.timestamp) && (q.until.At? ==> e.timestamp <= q.until.t)
  {
    Filter(org, Nullable(q.actor), Nullable(q.action), Nullable(q.entity), TimeOf(q.since), TimeOf(q.until))
  }

  // ---------- The file query ----------

  datatype File = File(
    id: Id, org: OrgId, uploadedBy: UserId, bucket: string, objectKey: string, sizeBytes: Option<int>,
    contentType: string, createdAt: Time)

  /** The rows to keep, newest first; `rows` are in the order of insertion. */
  function Newest<T>(rows: seq<T>, keep: T -> bool): seq<T> {
    if rows == [] then []
    else var r, rest := rows[|rows| - 1], Newest(rows[..|rows| - 1], keep);
         if keep(r) then [r] + rest else rest
  }

  function AuditRows(log: seq<Event>, f: Filter): seq<Event> {
    Newest(log, e => Matches(e, f))
  }

  function FileRows(files: seq<File>, org: OrgId): seq<File> {
    Newest(files, (x: File) => x.org == org)
  }

  function Min(a: int, b: int): int { if a <= b then a else b }

  /** LIMIT and OFFSET; a negative one is an error in Postgres. */
  function Window<T>(rows: seq<T>, limit: int, offset: int): Option<seq<T>> {
    if limit < 0 || offset < 0 then None
    else Some(rows[Min(offset, |rows|)..Min(offset + limit, |rows|)])
  }

  /** The rows that a page should hold. */
  function Slice<T>(rows: seq<T>, limit: nat, offset: nat): (items: seq<T>)
    ensures offset + limit <= |rows| ==> items == rows[offset..offset + limit]
    ensures offset <= |rows| < offset + limit ==> items == rows[offset..]
    ensures |rows| < offset ==> items == []
  {
    rows[Min(offset, |rows|)..Min(offset + limit, |rows|)]
  }

  // ---------- Clamps ----------

  function HandlerPage(page: Param): int {
    if ParseInt(page, 1) < 1 then 1 else ParseInt(page, 1)
  }

  function HandlerSize(size: Param): (s: int)
    ensures 1 <= s <= 100
  {
    var n := ParseInt(size, 20);
    if n < 1 then 20 else if n > 100 then 100 else n
  }

  /** The offset that a page number asks for. */
  function PageOffset(page: Param, size: Param): (offset: int)
    ensures offset >= 0
  {
    (HandlerPage(page) - 1) * HandlerSize(size)
  }

  function ServiceLimit(limit: int): int {
    if limit <= 0 || limit > 100 then 20 else limit
  }

  function ServiceOffset(offset: int): int {
    if offset < 0 then 0 else offset
  }

  /** The service: clamp again, convert to int32 and query. */
  function ServiceList<T>(rows: seq<T>, limit: int, offset: int): Option<seq<T>> {
    Window(rows, ToInt32(ServiceLimit(limit)), ToInt32(ServiceOffset(offset)))
  }

  datatype Page<+T> = Listed(items: seq<T>, nextOffset: int) | NotListed(status: int)

  function AuditPage(log: seq<Event>, f: Filter, page: Param, size: Param): Page<Event> {
    var offset := ToInt64(PageOffset(page, size));
    match ServiceList(AuditRows(log, f), HandlerSize(size), offset)
    case None => NotListed(500)
    case Some(items) => Listed(items, offset + |items|)
  }

  function FileLimit(limit: Param): int {
    if limit.Number? && 0 < limit.n <= 100 then limit.n else 20
  }

  function FileOffset(offset: Param): int {
    if offset.Number? && offset.n >= 0 then offset.n else 0
  }

  function FilePage<T>(rows: seq<T>, limit: Param, offset: Param): Page<T> {
    match ServiceList(rows, FileLimit(limit), FileOffset(offset))
    case None => NotListed(500)
    case Some(items) => Listed(items, FileOffset(offset) + |items|)
  }

  /** For offsets that fit, the service cuts out the rows asked for: 1 to 100 of them, or 20. */
  lemma ServiceSlices<T>(rows: seq<T>, limitParam: int, offsetParam: int)
    requires offsetParam < 0x8000_0000
    ensures var limit, offset := if 1 <= limitParam <= 100 then limitParam else 20, if offsetParam >= 0 then offsetParam else 0;
            ServiceList(rows, limitParam, offsetParam) == Some(Slice(rows, limit, offset))
  {
  }

  // ---------- The handlers as they run ----------

  /** The audit service: clamp, query and copy the rows out. */
  method ListEvents(log: seq<Event>, f: Filter, limitParam: int, offsetParam: int) returns (r: Option<seq<Event>>)
    ensures r == ServiceList(AuditRows(log, f), limitParam, offsetParam)
    ensures offsetParam < 0x8000_0000 ==>
              var limit, offset := if 1 <= limitParam <= 100 then limitParam else 20, if offsetParam >= 0 then offsetParam else 0;
              r == Some(Slice(AuditRows(log, f), limit, offset))
  {
    hide AuditRows, Slice;
    if offsetParam < 0x8000_0000 {
      ServiceSlices(AuditRows(log, f), limitParam, offsetParam);
    }
    var limit := limitParam;
    if limit <= 0 || limit > 100 {
      limit := 20;
    }
    var offset := offsetParam;
    if offset < 0 {
      offset := 0;
    }
    var rows := Window(AuditRows(log, f), ToInt32(limit), ToInt32(offset));
    if rows.None? {
      return None;
    }
    var out := [];
    for i := 0 to |rows.value|
      invariant out == rows.value[..i]
    {
      out := out + [rows.value[i]];
    }
    assert rows.value[..|rows.value|] == rows.value;
    return Some(out);
  }

  /** The optional parameters, one after the other. */
  method BuildFilter(org: OrgId, q: AuditQuery) returns (f: Filter)
    ensures f == FilterOf(org, q)
  {
    f := Filter(org, None, None, None, None, None);
    if q.actor != "" {
      f := f.(actor := Some(q.actor));
    }
    if q.action != "" {
      f := f.(action := Some(q.action));
    }
    if q.entity != "" {
      f := f.(entity := Some(q.entity));
    }
    if q.since.At? {
      f := f.(since := Some(q.since.t));
    }
    if q.until.At? {
      f := f.(until := Some(q.until.t));
    }
  }

  /** The page and page size to use: at least page 1, and between 1 and 100 items with a default of 20. */
  method PageAndSize(pageParam: Param, sizeParam: Param) returns (page: nat, pageSize: nat)
    ensures page == if pageParam.Number? && pageParam.n >= 1 then pageParam.n else 1
    ensures pageSize == if !sizeParam.Number? || sizeParam.n < 1 then 20 else if sizeParam.n > 100 then 100 else sizeParam.n
    ensures page >= 1 && 1 <= pageSize <= 100 && (page - 1) * pageSize == PageOffset(pageParam, sizeParam)
  {
    var size := ParseInt(sizeParam, 20);
    var number := ParseInt(pageParam, 1);
    if number < 1 {
      number := 1;
    }
    if size < 1 {
      size := 20;
    }
    if size > 100 {
      size := 100;
    }
    page, pageSize := number, size;
  }

  /** The audit handler; with the items it returns the page and page size it settled on. */
  method ListAudit(log: seq<Event>, org: Option<OrgId>, q: AuditQuery) returns (r: Page<Event>, page: nat, pageSize: nat)
    ensures r == if org.None? || org.value == "" then NotListed(400) else AuditPage(log, FilterOf(org.value, q), q.page, q.size)
    ensures page == if q.page.Number? && q.page.n >= 1 then q.page.n else 1
    ensures pageSize == if !q.size.Number? || q.size.n < 1 then 20 else if q.size.n > 100 then 100 else q.size.n
    ensures PageOffset(q.page, q.size) == (page - 1) * pageSize
    ensures org.Some? && org.value != "" && PageOffset(q.page, q.size) < 0x8000_0000 ==>
              var items := Slice(AuditRows(log, FilterOf(org.value, q)), pageSize, PageOffset(q.page, q.size));
              r == Listed(items, PageOffset(q.page, q.size) + |items|)
  {
    page, pageSize := PageAndSize(q.page, q.size);
    if org.None? || org.value == "" {
      return NotListed(400), page, pageSize;
    }
    var offset := ToInt64((page - 1) * pageSize);
    var f := BuildFilter(org.value, q);
    hide AuditRows, FilterOf, PageOffset;
    var items := ListEvents(log, f, pageSize, offset);
    if items.None? {
      r := NotListed(500);
    } else {
      r := Listed(items.value, offset + |items.value|);
    }
  }

  /** The file service: clamp in place, query and copy the rows out. */
  method ListFileRows(files: seq<File>, org: OrgId, limitParam: int, offsetParam: int) returns (r: Option<seq<File>>)
    ensures r == ServiceList(FileRows(files, org), limitParam, offsetParam)
    ensures offsetParam < 0x8000_0000 ==>
              var limit, offset := if 1 <= limitParam <= 100 then limitParam else 20, if offsetParam >= 0 then offsetParam else 0;
              r == Some(Slice(FileRows(files, org), limit, offset))
  {
    hide FileRows, Slice;
    if offsetParam < 0x8000_0000 {
      ServiceSlices(FileRows(files, org), limitParam, offsetParam);
    }
    var limit, offset := limitParam, offsetParam;
    if limit <= 0 || limit > 100 {
      limit := 20;
    }
    if offset < 0 {
      offset := 0;
    }
    var rows := Window(FileRows(files, org), ToInt32(limit), ToInt32(offset));
    if rows.None? {
      return None;
    }
    var out := [];
    for i := 0 to |rows.value|
      invariant out == rows.value[..i]
    {
      out := out + [rows.value[i]];
    }
    assert rows.value[..|rows.value|] == rows.value;
    return Some(out);
  }

  method ListFiles(files: seq<File>, org: Option<OrgId>, limitParam: Param, offsetParam: Param) returns (r: Page<File>)
    ensures r == if org.None? then NotListed(400) else FilePage(FileRows(files, org.value), limitParam, offsetParam)
    ensures org.Some? ==>
              var limit := if limitParam.Number? && 1 <= limitParam.n <= 100 then limitParam.n else 20;
              var offset := if offsetParam.Number? && offsetParam.n >= 0 then offsetParam.n else 0;
              var items := Slice(FileRows(files, org.value), limit, offset);
              offset < 0x8000_0000 ==> r == Listed(items, offset + |items|)
  {
    hide FileRows, Slice, ServiceList;
    if org.None? {
      return NotListed(400);
    }
    var limit := 20;
    if limitParam.Number? && limitParam.n > 0 && limitParam.n <= 100 {
      limit := limitParam.n;
    }
    var offset := 0;
    if offsetParam.Number? && offsetParam.n >= 0 {
      offset := offsetParam.n;
    }
    var items := ListFileRows(files, org.value, limit, offset);
    if items.None? {
      return NotListed(500);
    }
    return Listed(items.value, offset + |items.value|);
  }

  // ---------- The query result ----------

  predicate NonDecreasing<T>(rows: seq<T>, time: T -> Time) {
    forall i, j | 0 <= i < j < |rows| :: time(rows[i]) <= time(rows[j])
  }

  predicate NonIncreasing<T>(rows: seq<T>, time: T -> Time) {
    forall i, j | 0 <= i < j < |rows| :: time(rows[i]) >= time(rows[j])
  }

  function Count<T(==)>(rows: seq<T>, r: T): nat {
    if rows == [] then 0 else Count(rows[..|rows| - 1], r) + if rows[|rows| - 1] == r then 1 else 0
  }

  /** What a listing should hold: every row to keep as often as it is stored, newest first. */
  ghost predicate NewestFirst<T(!new)>(rows: seq<T>, keep: T -> bool, time: T -> Time, listed: seq<T>) {
    && NonIncreasing(listed, time)
    && (forall r :: multiset(listed)[r] == if keep(r) then Count(rows, r) else 0)
  }

  lemma {:induction false} NewestIsFilteredAndSorted<T(!new)>(rows: seq<T>, keep: T -> bool, time: T -> Time)
    requires NonDecreasing(rows, time)
    ensures NewestFirst(rows, keep, time, Newest(rows, keep))
    ensures forall r | r in Newest(rows, keep) :: r in rows
  {
    if rows != [] {
      var front, last := rows[..|rows| - 1], rows[|rows| - 1];
      NewestIsFilteredAndSorted(front, keep, time);
      var rest := Newest(front, keep);
      forall i | 0 <= i < |rest|
        ensures time(rest[i]) <= time(last)
      {
        assert rest[i] in front;
      }
    }
  }

  /** The audit query returns every matching event as often as it was recorded, newest first, and nothing else. */
  lemma AuditRowsAreRight(log: seq<Event>, f: Filter)
    requires NonDecreasing(log, (e: Event) => e.timestamp)
    ensures NewestFirst(log, (e: Event) => Matches(e, f), (e: Event) => e.timestamp, AuditRows(log, f))
  {
    NewestIsFilteredAndSorted(log, e => Matches(e, f), (e: Event) => e.timestamp);
  }

  /** So does the file query for the files of the org. */
  lemma FileRowsAreRight(files: seq<File>, org: OrgId)
    requires NonDecreasing(files, (x: File) => x.createdAt)
    ensures NewestFirst(files, (x: File) => x.org == org, (x: File) => x.createdAt, FileRows(files, org))
  {
    NewestIsFilteredAndSorted(files, (x: File) => x.org == org, (x: File) => x.createdAt);
  }

  // ---------- Walking the pages ----------

  /** The service clamp never alters a size that a handler produced. */
  lemma ServiceClampIdle(size: Param)
    ensures ServiceLimit(HandlerSize(size)) == HandlerSize(size)
    ensures ServiceLimit(FileLimit(size)) == FileLimit(size)
    ensures 1 <= HandlerSize(size) <= 100 && 1 <= FileLimit(size) <= 100
  {
  }

  predicate PageRight(log: seq<Event>, f: Filter, page: Param, size: Param) {
    AuditPage(log, f, page, size)
    == var items := Slice(AuditRows(log, f), HandlerSize(size), PageOffset(page, size));
       Listed(items, PageOffset(page, size) + |items|)
  }

  lemma SmallOffsetRight(log: seq<Event>, f: Filter, page: Param, size: Param)
    requires PageOffset(page, size) < TWO_31
    ensures PageRight(log, f, page, size)
  {
    hide PageOffset, AuditRows;
    ServiceClampIdle(size);
  }

  /** What 64-bit arithmetic makes of a number, in one formula. */
  function Wrapped64(x: int): int {
    (x + 0x8000_0000_0000_0000) % 0x1_0000_0000_0000_0000 - 0x8000_0000_0000_0000
  }

  lemma WrapsAre(x: int)
    ensures ToInt64(x) == Wrapped64(x)
    ensures 0 <= x ==> ToInt32(x) == if x % 0x1_0000_0000 < 0x8000_0000 then x % 0x1_0000_0000 else x % 0x1_0000_0000 - 0x1_0000_0000
  {
    hide ToInt64, ToInt32;
  }

  /** The audit page for every parameter, fitting or not: the offset wraps at 64 bits; a negative one reads the first page;
      otherwise only its low 32 bits count, and the query fails when these are negative. */
  lemma AuditPageExactly(log: seq<Event>, f: Filter, page: Param, size: Param)
    ensures var offset := Wrapped64(PageOffset(page, size));
            var low := if offset < 0 then 0 else offset % 0x1_0000_0000;
            AuditPage(log, f, page, size) ==
            if low >= 0x8000_0000 then NotListed(500)
            else var items := Slice(AuditRows(log, f), HandlerSize(size), low); Listed(items, offset + |items|)
  {
    hide PageOffset, AuditRows, Wrapped64;
    WrapsAre(PageOffset(page, size));
    WrapsAre(ServiceOffset(ToInt64(PageOffset(page, size))));
    ServiceClampIdle(size);
    hide ToInt64;
  }

  /** The file page for every parameter: only the low 32 bits of the offset count, and the query fails when these are negative. */
  lemma FilePageExactly(files: seq<File>, org: OrgId, limit: Param, offset: Param)
    ensures var low := FileOffset(offset) % 0x1_0000_0000;
            FilePage(FileRows(files, org), limit, offset) ==
            if low >= 0x8000_0000 then NotListed(500)
            else var items := Slice(FileRows(files, org), FileLimit(limit), low); Listed(items, FileOffset(offset) + |items|)
  {
    hide FileRows;
    WrapsAre(FileOffset(offset));
    ServiceClampIdle(limit);
  }

  function Repeated(e: Event, n: nat): seq<Event> {
    if n == 0 then [] else Repeated(e, n - 1) + [e]
  }

  lemma {:induction false} NewestRepeated(e: Event, f: Filter, n: nat)
    requires Matches(e, f)
    ensures |AuditRows(Repeated(e, n), f)| == n
  {
    if n > 0 {
      assert Repeated(e, n)[..|Repeated(e, n)| - 1] == Repeated(e, n - 1);
      NewestRepeated(e, f, n - 1);
    }
  }

  const EVERYTHING: Filter := Filter("org", None, None, None, None, None)

  /** Past 2^31 the wrapped offset points elsewhere: some log gets a wrong page or none. */
  lemma LargeOffsetWrong(page: Param, size: Param) returns (log: seq<Event>)
    requires PageOffset(page, size) >= TWO_31
    ensures !PageRight(log, EVERYTHING, page, size)
  {
    hide PageOffset;
    ServiceClampIdle(size);
    var sent := ToInt32(ServiceOffset(ToInt64(PageOffset(page, size))));
    var n := if sent < 0 then 0 else sent + 1;
    var e := Event("org", "", "", "", "", 0, None, None);
    log := Repeated(e, n);
    NewestRepeated(e, EVERYTHING, n);
  }

  /** A page of the audit log is right, for every log and filter, exactly when its offset fits a 32-bit integer. */
  lemma PageRightIff(page: Param, size: Param)
    ensures (forall log, f :: PageRight(log, f, page, size)) <==> PageOffset(page, size) < TWO_31
  {
    if PageOffset(page, size) < TWO_31 {
      forall log, f
        ensures PageRight(log, f, page, size)
      {
        SmallOffsetRight(log, f, page, size);
      }
    } else {
      var log := LargeOffsetWrong(page, size);
    }
  }

  /** Pages 1 to `k` one after the other. */
  function Pages(log: seq<Event>, f: Filter, size: Param, k: nat): seq<Event>
    requires k < TWO_63
  {
    if k == 0 then []
    else var p := AuditPage(log, f, Number(k), size);
         Pages(log, f, size, k - 1) + if p.Listed? then p.items else []
  }

  /** Where page `k` ends when pages are full. */
  function PageEnd(k: nat, size: Param): nat {
    if k == 0 then 0 else PageEnd(k - 1, size) + HandlerSize(size)
  }

  lemma {:induction false} PageEndIs(k: nat, size: Param)
    ensures PageEnd(k, size) == k * HandlerSize(size)
  {
    if k > 0 {
      PageEndIs(k - 1, size);
    }
  }

  lemma PageItems(log: seq<Event>, f: Filter, size: Param, k: nat)
    requires 1 <= k < TWO_63 && PageEnd(k - 1, size) < TWO_31
    ensures AuditPage(log, f, Number(k), size).Listed?
    ensures AuditPage(log, f, Number(k), size).items == Slice(AuditRows(log, f), HandlerSize(size), PageEnd(k - 1, size))
  {
    hide AuditPage, Slice, AuditRows;
    PageEndIs(k - 1, size);
    assert PageOffset(Number(k), size) == PageEnd(k - 1, size);
    SmallOffsetRight(log, f, Number(k), size);
  }

  lemma SlicesJoin<T>(rows: seq<T>, from: nat, s: nat)
    ensures rows[..Min(from, |rows|)] + Slice(rows, s, from) == rows[..Min(from + s, |rows|)]
  {
  }

  lemma {:induction false} FirstPages(log: seq<Event>, f: Filter, size: Param, k: nat)
    requires k < TWO_63 && (k > 0 ==> PageEnd(k - 1, size) < TWO_31)
    ensures Pages(log, f, size, k) == AuditRows(log, f)[..Min(PageEnd(k, size), |AuditRows(log, f)|)]
  {
    hide AuditPage, Slice, HandlerSize, AuditRows;
    if k > 0 {
      FirstPages(log, f, size, k - 1);
      PageItems(log, f, size, k);
      SlicesJoin(AuditRows(log, f), PageEnd(k - 1, size), HandlerSize(size));
    }
  }

  /** ceil(n / s) */
  function CeilDiv(n: nat, s: nat): (k: nat)
    requires s > 0
    ensures n <= k * s && k <= n
    ensures n > 0 ==> (k - 1) * s < n
  {
    if n <= s then (if n == 0 then 0 else 1) else 1 + CeilDiv(n - s, s)
  }

  /** Reading pages 1 to ceil(n / s) of a fixed log gives exactly the query result, with no gap and no repeat. */
  lemma AuditPageWalk(log: seq<Event>, f: Filter, size: Param)
    requires |AuditRows(log, f)| <= TWO_31
    ensures var k := CeilDiv(|AuditRows(log, f)|, HandlerSize(size));
            k < TWO_63 && Pages(log, f, size, k) == AuditRows(log, f)
  {
    ServiceClampIdle(size);
    hide CeilDiv, HandlerSize;
    var s, n := HandlerSize(size), |AuditRows(log, f)|;
    var k := CeilDiv(n, s);
    if n > 0 {
      PageEndIs(k, size);
      PageEndIs(k - 1, size);
      FirstPages(log, f, size, k);
      assert AuditRows(log, f)[..n] == AuditRows(log, f);
    }
  }

  /** A client that follows next_offset until a page comes back empty. */
  function Follow(files: seq<File>, org: OrgId, limit: Param, offset: Int64): seq<File>
    requires 0 <= offset <= |FileRows(files, org)| < TWO_31
    decreases |FileRows(files, org)| - offset
  {
    var p := FilePage(FileRows(files, org), limit, Number(offset));
    if p.NotListed? || p.items == [] || p.nextOffset > |FileRows(files, org)| || p.nextOffset <= offset then []
    else p.items + Follow(files, org, limit, p.nextOffset)
  }

  /** Following next_offset reads exactly the org's files from there on, in the order of the query, and stops. */
  lemma {:induction false} FollowReadsAll(files: seq<File>, org: OrgId, limit: Param, offset: Int64)
    requires 0 <= offset <= |FileRows(files, org)| < TWO_31
    ensures Follow(files, org, limit, offset) == FileRows(files, org)[offset..]
    decreases |FileRows(files, org)| - offset
  {
    hide FileRows, ServiceList;
    ServiceClampIdle(limit);
    var rows := FileRows(files, org);
    ServiceSlices(rows, FileLimit(limit), offset);
    var p := FilePage(rows, limit, Number(offset));
    var end := Min(offset + FileLimit(limit), |rows|);
    assert p == Listed(rows[offset..end], end);
    if offset < |rows| {
      FollowReadsAll(files, org, limit, end);
      assert rows[offset..end] + rows[end..] == rows[offset..];
    }
  }
}
