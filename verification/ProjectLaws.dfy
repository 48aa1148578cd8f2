/** Whole-run laws of the project handlers. */
module ProjectLaws {
  import opened Common
  import opened Projects

  // ---------- Lookups after each statement ----------

  predicate UniqueIds(t: Table) {
    forall i, j | 0 <= i < j < |t| :: t[i].id != t[j].id
  }

  lemma {:induction false} GetSound(t: Table, org: OrgId, id: Id)
    ensures var r := GetProject(t, org, id);
            if r.Some? then r.value in t && Keyed(r.value, org, id) else forall x | x in t :: !Keyed(x, org, id)
  {
    if t != [] {
      GetSound(t[1..], org, id);
    }
  }

  lemma {:induction false} GetAppended(t: Table, row: Row, org: OrgId, id: Id)
    ensures GetProject(t + [row], org, id)
            == if GetProject(t, org, id).Some? then GetProject(t, org, id) else if Keyed(row, org, id) then Some(row) else None
  {
    if t == [] {
      assert [row][1..] == [];
    } else {
      GetAppended(t[1..], row, org, id);
      assert (t + [row])[1..] == t[1..] + [row];
    }
  }

  lemma {:induction false} GetUpdated(t: Table, req: Request, org: OrgId, id: Id)
    requires req.Update?
    ensures var t' := UpdateProject(t, req.org, req.id, req.name, req.description, req.now);
            && |t'| == |t| && (forall i | 0 <= i < |t| :: t'[i].id == t[i].id)
            && GetProject(t', org, id)
               == (match GetProject(t, org, id)
                   case None => None
                   case Some(r) => Some(if org == req.org && id == req.id
                                        then Updated(r, req.name, req.description, req.now) else r))
  {
    if t != [] {
      GetUpdated(t[1..], req, org, id);
    }
  }

  lemma {:induction false} DeletedMembers(t: Table, o: OrgId, k: Id)
    ensures forall r | r in DeleteProject(t, o, k) :: r in t
  {
    if t != [] {
      DeletedMembers(t[1..], o, k);
    }
  }

  lemma {:induction false} DeleteKeepsUnique(t: Table, o: OrgId, k: Id)
    requires UniqueIds(t)
    ensures UniqueIds(DeleteProject(t, o, k))
  {
    if t != [] {
      var rest := DeleteProject(t[1..], o, k);
      DeleteKeepsUnique(t[1..], o, k);
      DeletedMembers(t[1..], o, k);
      forall i | 0 <= i < |rest|
        ensures rest[i].id != t[0].id
      {
        assert rest[i] in t[1..];
      }
    }
  }

  lemma {:induction false} GetDeleted(t: Table, o: OrgId, k: Id, org: OrgId, id: Id)
    ensures GetProject(DeleteProject(t, o, k), org, id) == if org == o && id == k then None else GetProject(t, org, id)
  {
    if t != [] {
      GetDeleted(t[1..], o, k, org, id);
      var rest := DeleteProject(t[1..], o, k);
      if !Keyed(t[0], o, k) {
        assert DeleteProject(t, o, k)[1..] == rest;
      }
    }
  }

  // ---------- The audit log replays to the table ----------

  predicate About(e: Event, org: OrgId, id: Id) {
    e.org == org && e.entity == "project" && e.entityId == id
  }

  /** The After of a project's latest event; a deletion has none. */
  function LastAfter(log: seq<Event>, org: OrgId, id: Id): Option<Project> {
    if log == [] then None
    else if About(log[|log| - 1], org, id) then log[|log| - 1].after
    else LastAfter(log[..|log| - 1], org, id)
  }

  /** An auditor's reconstruction of an org's projects from its events alone. */
  function Replay(log: seq<Event>, org: OrgId): map<Id, Project> {
    if log == [] then map[]
    else var before, e := Replay(log[..|log| - 1], org), log[|log| - 1];
         if e.org != org || e.entity != "project" then before
         else if e.after.Some? then before[e.entityId := e.after.value]
         else before - {e.entityId}
  }

  /** The projects of an org as its table rows show them. */
  function Current(t: Table, org: OrgId): map<Id, Project> {
    map r | r in t && r.org == org && GetProject(t, org, r.id).Some? :: r.id := ToProject(GetProject(t, org, r.id).value)
  }

  lemma {:induction false} ReplayIsLastAfter(log: seq<Event>, org: OrgId, id: Id)
    ensures LastAfter(log, org, id) == if id in Replay(log, org) then Some(Replay(log, org)[id]) else None
  {
    if log != [] {
      ReplayIsLastAfter(log[..|log| - 1], org, id);
    }
  }

  function Shown(r: Option<Row>): Option<Project> {
    if r.Some? then Some(ToProject(r.value)) else None
  }

  /** Every update and deletion was recorded with the state that its project's previous event left. */
  ghost predicate Chained(log: seq<Event>) {
    forall i | 0 <= i < |log| && log[i].entity == "project" && log[i].action != "project.created" ::
      log[i].before.Some? && log[i].before == LastAfter(log[..i], log[i].org, log[i].entityId)
  }

  ghost predicate Audited(s: Store) {
    && UniqueIds(s.table)
    && (forall org, id :: LastAfter(s.log, org, id) == Shown(GetProject(s.table, org, id)))
    && Chained(s.log)
  }

  lemma LogGrows(log: seq<Event>, e: Event)
    requires Chained(log)
    requires e.entity == "project" && e.action != "project.created" ==>
               e.before.Some? && e.before == LastAfter(log, e.org, e.entityId)
    ensures Chained(log + [e])
    ensures forall org, id ::
              LastAfter(log + [e], org, id) == if About(e, org, id) then e.after else LastAfter(log, org, id)
  {
    var log' := log + [e];
    assert log'[..|log|] == log;
    forall i | 0 <= i < |log'|
      ensures log'[..i] == log[..i]
    {
    }
  }

  lemma CreateAudited(s: Store, req: Request)
    requires Audited(s) && req.Create?
    ensures Audited(Handle(s, req).store)
  {
    var s' := Handle(s, req).store;
    if s' != s {
      var row := NewRow(req);
      LogGrows(s.log, s'.log[|s.log|]);
      forall org, id
        ensures LastAfter(s'.log, org, id) == Shown(GetProject(s'.table, org, id))
      {
        GetAppended(s.table, row, org, id);
        GetSound(s.table, org, id);
        assert LastAfter(s.log, org, id) == Shown(GetProject(s.table, org, id));
      }
    }
  }

  lemma UpdateAudited(s: Store, req: Request)
    requires Audited(s) && req.Update?
    ensures Audited(Handle(s, req).store)
  {
    var s' := Handle(s, req).store;
    if req.org != "" && req.name != "" && GetProject(s.table, req.org, req.id).Some? {
      assert LastAfter(s.log, req.org, req.id) == Shown(GetProject(s.table, req.org, req.id));
      LogGrows(s.log, s'.log[|s.log|]);
      forall org, id
        ensures LastAfter(s'.log, org, id) == Shown(GetProject(s'.table, org, id))
      {
        GetUpdated(s.table, req, org, id);
        assert LastAfter(s.log, org, id) == Shown(GetProject(s.table, org, id));
      }
      GetUpdated(s.table, req, req.org, req.id);
    }
  }

  lemma DeleteAudited(s: Store, req: Request)
    requires Audited(s) && req.Delete?
    ensures Audited(Handle(s, req).store)
  {
    var s' := Handle(s, req).store;
    if req.org != "" && GetProject(s.table, req.org, req.id).Some? {
      assert LastAfter(s.log, req.org, req.id) == Shown(GetProject(s.table, req.org, req.id));
      LogGrows(s.log, s'.log[|s.log|]);
      forall org, id
        ensures LastAfter(s'.log, org, id) == Shown(GetProject(s'.table, org, id))
      {
        GetDeleted(s.table, req.org, req.id, org, id);
        assert LastAfter(s.log, org, id) == Shown(GetProject(s.table, org, id));
      }
      DeleteKeepsUnique(s.table, req.org, req.id);
    }
  }

  lemma StepAudited(s: Store, req: Request)
    requires Audited(s)
    ensures Audited(Handle(s, req).store)
  {
    match req
    case Create(_, _, _, _, _, _) => CreateAudited(s, req);
    case Update(_, _, _, _, _, _) => UpdateAudited(s, req);
    case Delete(_, _, _, _) => DeleteAudited(s, req);
    case Other(_, e) =>
      if e.entity != "project" {
        LogGrows(s.log, e);
      }
    case List(_) =>
    case Get(_, _) =>
  }

  lemma {:induction false} RunAudited(s: Store, reqs: seq<Request>)
    requires Audited(s)
    ensures Audited(After(s, reqs))
    decreases |reqs|
  {
    hide Handle, Audited;
    if reqs != [] {
      StepAudited(s, reqs[0]);
      RunAudited(Handle(s, reqs[0]).store, reqs[1..]);
    }
  }

  /** In every run, replaying an org's audit events from nothing rebuilds exactly its current projects, and
      each update or deletion recorded as Before the After of that project's previous event. */
  lemma AuditReplay(reqs: seq<Request>, org: OrgId)
    ensures var s := After(EMPTY, reqs);
            Replay(s.log, org) == Current(s.table, org) && Chained(s.log)
  {
    hide Handle;
    RunAudited(EMPTY, reqs);
    var s := After(EMPTY, reqs);
    forall id
      ensures id in Replay(s.log, org) <==> id in Current(s.table, org)
      ensures id in Replay(s.log, org) ==> Replay(s.log, org)[id] == Current(s.table, org)[id]
    {
      ReplayIsLastAfter(s.log, org, id);
      GetSound(s.table, org, id);
      assert LastAfter(s.log, org, id) == Shown(GetProject(s.table, org, id));
    }
  }

  // ---------- What each request does ----------

  /** A read after a write sees exactly what was written: a creation or an update shows up with its own fields and
      the creation data it had, a deletion as a miss, and every other project is as before. */
  lemma ReadAfterWrite(s: Store, req: Request, org: OrgId, id: Id)
    requires UniqueIds(s.table) && org != ""
    ensures var e := Handle(s, req);
            var was, seen := Handle(s, Get(org, id)).response, Handle(e.store, Get(org, id)).response;
            if e.response.Refused? || req.List? || req.Get? || req.Other? || req.org != org || req.id != id then seen == was
            else match req
                 case Create(_, user, name, description, _, now) =>
                   was == Refused(404) && seen == One(Project(id, org, name, description, user, now, now)) == e.response
                 case Update(_, _, _, name, description, now) =>
                   was.One? && seen == One(was.project.(name := name, description := description, updatedAt := now)) == e.response
                 case Delete(_, _, _, _) => was.One? && seen == Refused(404)
  {
    GetSound(s.table, org, id);
    match req
    case Create(_, _, _, _, _, _) => GetAppended(s.table, NewRow(req), org, id);
    case Update(_, _, _, _, _, _) => GetUpdated(s.table, req, org, id);
    case Delete(_, _, _, _) => GetDeleted(s.table, req.org, req.id, org, id);
    case _ =>
  }

  // ---------- Tenants do not interfere ----------

  function Purge(reqs: seq<Request>, org: OrgId): seq<Request> {
    if reqs == [] then []
    else if reqs[0].org == org then [reqs[0]] + Purge(reqs[1..], org)
    else Purge(reqs[1..], org)
  }

  /** The responses to one org's requests, in order. */
  function AnswersTo(s: Store, reqs: seq<Request>, org: OrgId): seq<Response>
    decreases |reqs|
  {
    if reqs == [] then []
    else var e := Handle(s, reqs[0]);
         var rest := AnswersTo(e.store, reqs[1..], org);
         if reqs[0].org == org then [e.response] + rest else rest
  }

  /** Generated ids never hit a row of another org. */
  predicate NoForeignCollision(t: Table, req: Request, org: OrgId) {
    req.Create? && req.org == org && org != "" && req.user != "" && req.name != "" ==>
      forall r | r in t && r.id == req.id :: r.org == org
  }

  predicate CollisionFree(s: Store, reqs: seq<Request>, org: OrgId)
    decreases |reqs|
  {
    reqs == [] || (NoForeignCollision(s.table, reqs[0], org) && CollisionFree(Handle(s, reqs[0]).store, reqs[1..], org))
  }

  lemma {:induction false} ListedMembers(t: Table, org: OrgId)
    ensures forall r :: r in ListProjects(t, org) <==> r in t && r.org == org
  {
    if t != [] {
      ListedMembers(t[1..], org);
      assert forall r :: r in t <==> r == t[0] || r in t[1..];
    }
  }

  lemma {:induction false} ListedAppend(t: Table, row: Row, org: OrgId)
    ensures ListProjects(t + [row], org) == ListProjects(t, org) + if row.org == org then [row] else []
  {
    if t == [] {
      assert [row][1..] == [];
    } else {
      ListedAppend(t[1..], row, org);
      assert (t + [row])[1..] == t[1..] + [row];
    }
  }

  lemma {:induction false} ListedTwice(t: Table, org: OrgId)
    ensures ListProjects(ListProjects(t, org), org) == ListProjects(t, org)
  {
    if t != [] {
      ListedTwice(t[1..], org);
      var listed := ListProjects(t, org);
      if t[0].org == org {
        assert listed[1..] == ListProjects(t[1..], org);
      }
    }
  }

  lemma {:induction false} GetListed(t: Table, org: OrgId, id: Id)
    ensures GetProject(ListProjects(t, org), org, id) == GetProject(t, org, id)
  {
    if t != [] {
      GetListed(t[1..], org, id);
      var listed := ListProjects(t, org);
      if t[0].org == org {
        assert listed[1..] == ListProjects(t[1..], org);
      }
    }
  }

  lemma {:induction false} ListedUpdate(t: Table, req: Request, org: OrgId)
    requires req.Update?
    ensures var change := (x: Table) => UpdateProject(x, req.org, req.id, req.name, req.description, req.now);
            ListProjects(change(t), org) == if req.org == org then change(ListProjects(t, org)) else ListProjects(t, org)
  {
    if t != [] {
      ListedUpdate(t[1..], req, org);
      var t' := UpdateProject(t, req.org, req.id, req.name, req.description, req.now);
      assert t'[1..] == UpdateProject(t[1..], req.org, req.id, req.name, req.description, req.now);
      var listed := ListProjects(t, org);
      if t[0].org == org {
        assert listed[1..] == ListProjects(t[1..], org);
      }
    }
  }

  lemma {:induction false} ListedDelete(t: Table, o: OrgId, k: Id, org: OrgId)
    ensures ListProjects(DeleteProject(t, o, k), org)
            == if o == org then DeleteProject(ListProjects(t, org), o, k) else ListProjects(t, org)
  {
    if t != [] {
      ListedDelete(t[1..], o, k, org);
      var t' := DeleteProject(t, o, k);
      if !Keyed(t[0], o, k) {
        assert t'[1..] == DeleteProject(t[1..], o, k);
      }
      var listed := ListProjects(t, org);
      if t[0].org == org {
        assert listed[1..] == ListProjects(t[1..], org);
      }
    }
  }

  /** The purged run's table is what the full run's table shows that org. */
  predicate SeenBy(full: Store, purged: Store, org: OrgId) {
    purged.table == ListProjects(full.table, org) && UniqueIds(full.table)
  }

  lemma HandleKeepsUnique(s: Store, req: Request)
    requires UniqueIds(s.table)
    ensures UniqueIds(Handle(s, req).store.table)
  {
    match req
    case Update(_, _, id, _, _, _) => GetUpdated(s.table, req, req.org, id);
    case Delete(_, _, id, _) => DeleteKeepsUnique(s.table, req.org, id);
    case _ =>
  }

  lemma OthersUnseen(full: Store, purged: Store, req: Request, org: OrgId)
    requires SeenBy(full, purged, org) && req.org != org
    ensures SeenBy(Handle(full, req).store, purged, org)
  {
    HandleKeepsUnique(full, req);
    match req
    case Create(_, _, _, _, _, _) => ListedAppend(full.table, NewRow(req), org);
    case Update(_, _, _, _, _, _) => ListedUpdate(full.table, req, org);
    case Delete(o, _, id, _) => ListedDelete(full.table, o, id, org);
    case _ =>
  }

  lemma OwnSeen(full: Store, purged: Store, req: Request, org: OrgId)
    requires SeenBy(full, purged, org) && req.org == org
    ensures Handle(full, req).response == Handle(purged, req).response <==> NoForeignCollision(full.table, req, org)
    ensures NoForeignCollision(full.table, req, org) ==> SeenBy(Handle(full, req).store, Handle(purged, req).store, org)
  {
    HandleKeepsUnique(full, req);
    match req
    case List(_) => ListedTwice(full.table, org);
    case Get(_, id) => GetListed(full.table, org, id);
    case Create(_, _, _, _, id, _) => CreateSeen(full, purged, req, org);
    case Update(_, _, id, _, _, _) =>
      GetListed(full.table, org, id);
      ListedUpdate(full.table, req, org);
    case Delete(o, _, id, _) =>
      GetListed(full.table, org, id);
      ListedDelete(full.table, o, id, org);
    case Other(_, _) =>
  }

  lemma CreateSeen(full: Store, purged: Store, req: Request, org: OrgId)
    requires SeenBy(full, purged, org) && req.org == org && req.Create?
    ensures Handle(full, req).response == Handle(purged, req).response <==> NoForeignCollision(full.table, req, org)
    ensures NoForeignCollision(full.table, req, org) ==> SeenBy(Handle(full, req).store, Handle(purged, req).store, org)
  {
    HandleKeepsUnique(full, req);
    ListedAppend(full.table, NewRow(req), org);
    ListedMembers(full.table, org);
    if r :| r in full.table && r.id == req.id {
      assert IdTaken(full.table, req.id);
      assert IdTaken(purged.table, req.id) <==> r.org == org by {
        SameRow(full.table, r, req.id);
      }
    }
  }

  lemma SameRow(t: Table, r: Row, id: Id)
    requires UniqueIds(t) && r in t && r.id == id
    ensures forall x | x in t && x.id == id :: x == r
  {
  }

  lemma {:induction false} PurgedRunAgrees(full: Store, purged: Store, reqs: seq<Request>, org: OrgId)
    requires SeenBy(full, purged, org)
    ensures AnswersTo(full, reqs, org) == AnswersTo(purged, Purge(reqs, org), org) <==> CollisionFree(full, reqs, org)
    decreases |reqs|
  {
    hide Handle, SeenBy, NoForeignCollision;
    if reqs != [] {
      var req := reqs[0];
      var rest := Purge(reqs[1..], org);
      if req.org != org {
        OthersUnseen(full, purged, req, org);
        NotOurs(full.table, req, org);
        PurgedRunAgrees(Handle(full, req).store, purged, reqs[1..], org);
      } else {
        OwnSeen(full, purged, req, org);
        assert Purge(reqs, org)[1..] == rest;
        var theirs := AnswersTo(full, reqs, org);
        var ours := AnswersTo(purged, Purge(reqs, org), org);
        assert theirs[0] == Handle(full, req).response && ours[0] == Handle(purged, req).response;
        if NoForeignCollision(full.table, req, org) {
          PurgedRunAgrees(Handle(full, req).store, Handle(purged, req).store, reqs[1..], org);
          assert theirs[1..] == AnswersTo(Handle(full, req).store, reqs[1..], org);
          assert ours[1..] == AnswersTo(Handle(purged, req).store, rest, org);
        }
      }
    }
  }

  lemma NotOurs(t: Table, req: Request, org: OrgId)
    requires req.org != org
    ensures NoForeignCollision(t, req, org)
  {
  }

  /** Non-interference: removing every request of other orgs from a run changes nothing that an org is told,
      exactly when none of its creations draws an id that a row of another org already has. */
  lemma TenantsDoNotInterfere(reqs: seq<Request>, org: OrgId)
    ensures AnswersTo(EMPTY, reqs, org) == AnswersTo(EMPTY, Purge(reqs, org), org) <==> CollisionFree(EMPTY, reqs, org)
  {
    PurgedRunAgrees(EMPTY, EMPTY, reqs, org);
  }

  /** The condition can fail: a creation that draws another org's id is refused only in the full run. */
  lemma CollisionInterferes(id: Id)
    ensures var reqs := [Create("a", "u", "p", "", id, 0), Create("b", "v", "q", "", id, 1)];
            AnswersTo(EMPTY, reqs, "b") != AnswersTo(EMPTY, Purge(reqs, "b"), "b")
  {
    var first, second := Create("a", "u", "p", "", id, 0), Create("b", "v", "q", "", id, 1);
    var reqs := [first, second];
    var s := Handle(EMPTY, first).store;
    assert s.table[0] == NewRow(first) && s.table[0] in s.table;
    assert !NoForeignCollision(s.table, second, "b");
    assert reqs[1..] == [second];
    TenantsDoNotInterfere(reqs, "b");
  }

  // ---------- Insertion order is creation order ----------

  predicate Ascending(t: Table, now: Time) {
    (forall i, j | 0 <= i < j < |t| :: t[i].createdAt <= t[j].createdAt) && forall r | r in t :: r.createdAt <= now
  }

  predicate Timely(clock: Time, reqs: seq<Request>)
    decreases |reqs|
  {
    reqs == [] ||
    (if reqs[0].Create? then clock <= reqs[0].now && Timely(reqs[0].now, reqs[1..]) else Timely(clock, reqs[1..]))
  }

  lemma {:induction false} UpdateKeepsTimes(t: Table, req: Request)
    requires req.Update?
    ensures var t' := UpdateProject(t, req.org, req.id, req.name, req.description, req.now);
            |t'| == |t| && forall i | 0 <= i < |t| :: t'[i].createdAt == t[i].createdAt
  {
    if t != [] {
      UpdateKeepsTimes(t[1..], req);
    }
  }

  lemma {:induction false} DeleteKeepsAscending(t: Table, o: OrgId, k: Id, now: Time)
    requires Ascending(t, now)
    ensures Ascending(DeleteProject(t, o, k), now)
  {
    if t != [] {
      DeleteKeepsAscending(t[1..], o, k, now);
      DeletedMembers(t[1..], o, k);
      var rest := DeleteProject(t[1..], o, k);
      forall i | 0 <= i < |rest|
        ensures t[0].createdAt <= rest[i].createdAt <= now
      {
        assert rest[i] in t[1..];
      }
    }
  }

  lemma {:induction false} ListKeepsAscending(t: Table, org: OrgId, now: Time)
    requires Ascending(t, now)
    ensures Ascending(ListProjects(t, org), now)
  {
    if t != [] {
      ListKeepsAscending(t[1..], org, now);
      ListedMembers(t[1..], org);
      var rest := ListProjects(t[1..], org);
      forall i | 0 <= i < |rest|
        ensures t[0].createdAt <= rest[i].createdAt <= now
      {
        assert rest[i] in t[1..];
      }
    }
  }

  /** With a clock that never runs backwards, every listing holds exactly the org's rows, oldest first. */
  lemma {:induction false} ListedOldestFirst(s: Store, clock: Time, reqs: seq<Request>, org: OrgId)
    requires Ascending(s.table, clock) && Timely(clock, reqs)
    ensures var listed := ListProjects(After(s, reqs).table, org);
            && (forall i, j | 0 <= i < j < |listed| :: listed[i].createdAt <= listed[j].createdAt)
            && (forall r :: r in listed <==> r in After(s, reqs).table && r.org == org)
    decreases |reqs|
  {
    if reqs == [] {
      ListKeepsAscending(s.table, org, clock);
      ListedMembers(s.table, org);
    } else {
      var req, s' := reqs[0], Handle(s, reqs[0]).store;
      var clock' := if req.Create? then req.now else clock;
      StepAscends(s, req, clock, clock');
      ListedOldestFirst(s', clock', reqs[1..], org);
    }
  }

  lemma UpdateKeepsAscending(t: Table, req: Request, now: Time)
    requires req.Update? && Ascending(t, now)
    ensures Ascending(UpdateProject(t, req.org, req.id, req.name, req.description, req.now), now)
  {
    UpdateKeepsTimes(t, req);
    var t' := UpdateProject(t, req.org, req.id, req.name, req.description, req.now);
    hide UpdateProject;
    forall r | r in t'
      ensures r.createdAt <= now
    {
      var i :| 0 <= i < |t'| && t'[i] == r;
      assert t[i] in t;
    }
  }

  lemma StepAscends(s: Store, req: Request, clock: Time, clock': Time)
    requires Ascending(s.table, clock) && clock <= clock' && (req.Create? ==> clock' == req.now)
    ensures Ascending(Handle(s, req).store.table, clock')
  {
    assert Ascending(s.table, clock');
    if req.Update? {
      UpdateKeepsAscending(s.table, req, clock');
      hide Ascending;
    } else if req.Delete? {
      DeleteKeepsAscending(s.table, req.org, req.id, clock');
      hide Ascending;
    } else if req.Create? {
      assert Ascending(s.table + [NewRow(req)], clock');
      hide Ascending;
    } else {
      hide Ascending;
    }
  }
}
