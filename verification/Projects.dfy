/** Projects and the audit log their handlers write. Tables are sequences in the order of insertion;
    handlers run one at a time, audit writes succeed and JSON snapshots round-trip. */
module Projects {
  import opened Common

  type OrgId = string
  type UserId = string
  type Id = string
  type Time = int

  datatype Row = Row(
    id: Id, org: OrgId, name: string, description: Option<string>, createdBy: UserId, createdAt: Time, updatedAt: Time)

  datatype Project = Project(
    id: Id, org: OrgId, name: string, description: string, createdBy: UserId, createdAt: Time, updatedAt: Time)

  function ToProject(r: Row): Project {
    Project(r.id, r.org, r.name, if r.description.Some? then r.description.value else "", r.createdBy, r.createdAt, r.updatedAt)
  }

  type Table = seq<Row>

  // ---------- Statements ----------

  predicate Keyed(r: Row, org: OrgId, id: Id) {
    r.id == id && r.org == org
  }

  /** The lookup by id and org. */
  function GetProject(t: Table, org: OrgId, id: Id): Option<Row> {
    if t == [] then None else if Keyed(t[0], org, id) then Some(t[0]) else GetProject(t[1..], org, id)
  }

  predicate IdTaken(t: Table, id: Id) {
    exists r | r in t :: r.id == id
  }

  function Nullable(s: string): Option<string> {
    if s == "" then None else Some(s)
  }

  /** An empty name keeps the old one; an empty description clears it. */
  function Updated(r: Row, name: string, description: string, now: Time): Row {
    r.(name := if name == "" then r.name else name, description := Nullable(description), updatedAt := now)
  }

  function UpdateProject(t: Table, org: OrgId, id: Id, name: string, description: string, now: Time): Table {
    if t == [] then []
    else [if Keyed(t[0], org, id) then Updated(t[0], name, description, now) else t[0]]
         + UpdateProject(t[1..], org, id, name, description, now)
  }

  function DeleteProject(t: Table, org: OrgId, id: Id): Table {
    if t == [] then []
    else if Keyed(t[0], org, id) then DeleteProject(t[1..], org, id)
    else [t[0]] + DeleteProject(t[1..], org, id)
  }

  /** The org's rows in the order of insertion. */
  function ListProjects(t: Table, org: OrgId): Table {
    if t == [] then []
    else if t[0].org == org then [t[0]] + ListProjects(t[1..], org)
    else ListProjects(t[1..], org)
  }

  function ToProjects(t: Table): (ps: seq<Project>)
    ensures |ps| == |t|
  {
    seq(|t|, i requires 0 <= i < |t| => ToProject(t[i]))
  }

  // ---------- The audit log ----------

  datatype Event = Event(
    org: OrgId, actor: UserId, action: string, entity: string, entityId: Id, timestamp: Time,
    before: Option<Project>, after: Option<Project>)

  const ZERO: Project := Project("", "", "", "", "", 0, 0)

  function Snapshot(r: Option<Row>): Project {
    if r.Some? then ToProject(r.value) else ZERO
  }

  // ---------- Requests ----------

  datatype Request =
    | List(org: OrgId)
    | Get(org: OrgId, id: Id)
    | Create(org: OrgId, user: UserId, name: string, description: string, id: Id, now: Time)
    | Update(org: OrgId, user: UserId, id: Id, name: string, description: string, now: Time)
    | Delete(org: OrgId, user: UserId, id: Id, now: Time)
    | Other(org: OrgId, event: Event) // another handler records an event about another kind of entity

  datatype Response = Items(items: seq<Project>) | One(project: Project) | NoContent | Refused(status: int)

  datatype Store = Store(table: Table, log: seq<Event>)

  datatype Effect = Effect(store: Store, response: Response)

  function NewRow(req: Request): Row
    requires req.Create?
  {
    Row(req.id, req.org, req.name, Nullable(req.description), req.user, req.now, req.now)
  }

  function Handle(s: Store, req: Request): Effect {
    if req.org == "" then Effect(s, Refused(400))
    else match req
         case List(org) => Effect(s, Items(ToProjects(ListProjects(s.table, org))))
         case Get(org, id) =>
           var r := GetProject(s.table, org, id);
           Effect(s, if r.Some? then One(ToProject(r.value)) else Refused(404))
         case Create(org, user, name, description, id, now) =>
           if user == "" then Effect(s, Refused(401))
           else if name == "" then Effect(s, Refused(422))
           else if IdTaken(s.table, id) then Effect(s, Refused(500))
           else var p := ToProject(NewRow(req));
                Effect(Store(s.table + [NewRow(req)],
                             s.log + [Event(org, user, "project.created", "project", id, now, None, Some(p))]), One(p))
         case Update(org, user, id, name, description, now) =>
           var prior := GetProject(s.table, org, id);
           if name == "" then Effect(s, Refused(422))
           else if prior.None? then Effect(s, Refused(500))
           else var p := ToProject(Updated(prior.value, name, description, now));
                Effect(Store(UpdateProject(s.table, org, id, name, description, now),
                             s.log + [Event(org, user, "project.updated", "project", id, now, Some(Snapshot(prior)), Some(p))]),
                       One(p))
         case Delete(org, user, id, now) =>
           var prior := GetProject(s.table, org, id);
           if prior.None? then Effect(s, Refused(404))
           else Effect(Store(DeleteProject(s.table, org, id),
                             s.log + [Event(org, user, "project.deleted", "project", id, now, Some(Snapshot(prior)), None)]),
                       NoContent)
         case Other(org, e) =>
           Effect(if e.entity == "project" then s else s.(log := s.log + [e]), NoContent)
  }

  function After(s: Store, reqs: seq<Request>): Store
    decreases |reqs|
  {
    if reqs == [] then s else After(Handle(s, reqs[0]).store, reqs[1..])
  }

  const EMPTY: Store := Store([], [])

  // ---------- The handlers as they run ----------

  class ProjectsHandler {
    var table: Table
    var log: seq<Event>

    ghost function View(): Store
      reads this
    {
      Store(table, log)
    }

    constructor ()
      ensures View() == EMPTY
    {
      table, log := [], [];
    }

    method HandleList(org: OrgId) returns (r: Response)
      ensures Effect(View(), r) == Handle(View(), List(org))
    {
      if org == "" {
        return Refused(400);
      }
      var rows := ListProjects(table, org);
      var out := [];
      for i := 0 to |rows|
        invariant out == ToProjects(rows[..i])
      {
        out := out + [ToProject(rows[i])];
      }
      assert rows[..|rows|] == rows;
      return Items(out);
    }

    method HandleGet(org: OrgId, id: Id) returns (r: Response)
      ensures Effect(View(), r) == Handle(View(), Get(org, id))
    {
      if org == "" {
        return Refused(400);
      }
      var row := GetProject(table, org, id);
      if row.None? {
        return Refused(404);
      }
      return One(ToProject(row.value));
    }

    method HandleCreate(org: OrgId, user: UserId, name: string, description: string, id: Id, now: Time) returns (r: Response)
      modifies this
      ensures Effect(View(), r) == Handle(old(View()), Create(org, user, name, description, id, now))
    {
      if org == "" {
        return Refused(400);
      }
      if user == "" {
        return Refused(401);
      }
      if name == "" {
        return Refused(422);
      }
      if exists x | x in table :: x.id == id {
        return Refused(500);
      }
      var row := Row(id, org, name, Nullable(description), user, now, now);
      table := table + [row];
      var p := ToProject(row);
      log := log + [Event(org, user, "project.created", "project", id, now, None, Some(p))];
      return One(p);
    }

    method HandleUpdate(org: OrgId, user: UserId, id: Id, name: string, description: string, now: Time) returns (r: Response)
      modifies this
      ensures Effect(View(), r) == Handle(old(View()), Update(org, user, id, name, description, now))
    {
      if org == "" {
        return Refused(400);
      }
      var prior := GetProject(table, org, id);
      var before := Snapshot(prior);
      if name == "" {
        return Refused(422);
      }
      if prior.None? {
        return Refused(500);
      }
      table := UpdateProject(table, org, id, name, description, now);
      var p := ToProject(Updated(prior.value, name, description, now));
      log := log + [Event(org, user, "project.updated", "project", id, now, Some(before), Some(p))];
      return One(p);
    }

    method HandleDelete(org: OrgId, user: UserId, id: Id, now: Time) returns (r: Response)
      modifies this
      ensures Effect(View(), r) == Handle(old(View()), Delete(org, user, id, now))
    {
      if org == "" {
        return Refused(400);
      }
      var prior := GetProject(table, org, id);
      var before := Snapshot(prior);
      if prior.None? {
        return Refused(404);
      }
      table := DeleteProject(table, org, id);
      log := log + [Event(org, user, "project.deleted", "project", id, now, Some(before), None)];
      return NoContent;
    }
  }
}
