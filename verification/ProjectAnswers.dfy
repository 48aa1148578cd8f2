/** What the project handlers answer and record, told through what a Get shows. */
module ProjectAnswers {
  import opened Common
  import opened Projects
  import opened ProjectLaws

  /** Every reachable table: ids are unique and every row has an org. */
  ghost predicate Healthy(s: Store) {
    UniqueIds(s.table) && forall r | r in s.table :: r.org != ""
  }

  lemma {:induction false} UpdateKeepsOrgs(t: Table, req: Request)
    requires req.Update? && forall r | r in t :: r.org != ""
    ensures forall r | r in UpdateProject(t, req.org, req.id, req.name, req.description, req.now) :: r.org != ""
  {
    if t != [] {
      UpdateKeepsOrgs(t[1..], req);
    }
  }

  lemma HandleKeepsHealthy(s: Store, req: Request)
    requires Healthy(s)
    ensures Healthy(Handle(s, req).store)
  {
    HandleKeepsUnique(s, req);
    match req
    case Update(_, _, _, _, _, _) => UpdateKeepsOrgs(s.table, req);
    case Delete(_, _, _, _) => DeletedMembers(s.table, req.org, req.id);
    case _ =>
  }

  lemma {:induction false} RunHealthy(s: Store, reqs: seq<Request>)
    requires Healthy(s)
    ensures Healthy(After(s, reqs))
    decreases |reqs|
  {
    hide Handle, Healthy;
    if reqs != [] {
      HandleKeepsHealthy(s, reqs[0]);
      RunHealthy(Handle(s, reqs[0]).store, reqs[1..]);
    }
  }

  /** What a Get shows of a project. */
  function Seen(s: Store, org: OrgId, id: Id): Response {
    Handle(s, Get(org, id)).response
  }

  lemma SeenIsRow(s: Store, org: OrgId, id: Id)
    requires UniqueIds(s.table) && org != ""
    ensures match Seen(s, org, id)
            case One(p) => exists r :: r in s.table && Keyed(r, org, id) && p == ToProject(r)
            case Refused(status) => status == 404 && forall r | r in s.table :: !Keyed(r, org, id)
            case _ => false
    ensures forall r | r in s.table && Keyed(r, org, id) :: Seen(s, org, id) == One(ToProject(r))
  {
    GetSound(s.table, org, id);
  }

  // ---------- Listing ----------

  lemma ListedAre(s: Store, org: OrgId)
    requires org != ""
    ensures var rows := ListProjects(s.table, org);
            Handle(s, List(org)).response == Items(ToProjects(rows)) && forall r :: r in rows <==> r in s.table && r.org == org
  {
    ListedMembers(s.table, org);
  }

  lemma {:induction false} ListKeepsUnique(t: Table, org: OrgId)
    requires UniqueIds(t)
    ensures UniqueIds(ListProjects(t, org))
  {
    if t != [] {
      ListKeepsUnique(t[1..], org);
      ListedMembers(t[1..], org);
      var rest := ListProjects(t[1..], org);
      forall i | 0 <= i < |rest|
        ensures rest[i].id != t[0].id
      {
        assert rest[i] in t[1..];
      }
    }
  }

  /** After every run, the answer to a List holds exactly the projects that a Get of the org shows, each once, and oldest
      first when the clock never runs backwards. */
  lemma ListShowsAll(clock: Time, reqs: seq<Request>, org: OrgId)
    requires org != ""
    ensures var s := After(EMPTY, reqs);
            var response := Handle(s, List(org)).response;
            && response.Items?
            && (forall p :: p in response.items <==> Seen(s, org, p.id) == One(p))
            && (forall i, j | 0 <= i < j < |response.items| :: response.items[i].id != response.items[j].id)
            && (Timely(clock, reqs) ==>
                  forall i, j | 0 <= i < j < |response.items| :: response.items[i].createdAt <= response.items[j].createdAt)
  {
    hide After;
    var s := After(EMPTY, reqs);
    RunHealthy(EMPTY, reqs);
    ListedAre(s, org);
    ListKeepsUnique(s.table, org);
    if Timely(clock, reqs) {
      ListedOldestFirst(EMPTY, clock, reqs, org);
    }
    hide Handle, ListProjects;
    var rows := ListProjects(s.table, org);
    var items := ToProjects(rows);
    forall p
      ensures p in items <==> Seen(s, org, p.id) == One(p)
    {
      SeenIsRow(s, org, p.id);
      if p in items {
        var i :| 0 <= i < |items| && items[i] == p;
        assert rows[i] in rows;
      }
      if Seen(s, org, p.id) == One(p) {
        var r :| r in s.table && Keyed(r, org, p.id) && p == ToProject(r);
        var i :| 0 <= i < |rows| && rows[i] == r;
        assert items[i] == p;
      }
    }
  }

  // ---------- Writing ----------

  /** Some org has a project with that id. */
  ghost predicate SomewhereSeen(s: Store, id: Id) {
    exists org :: org != "" && Seen(s, org, id).One?
  }

  /** The answer to a request, given what a Get shows before it. */
  ghost predicate Answers(s: Store, req: Request, r: Response) {
    if req.org == "" then r == Refused(400)
    else match req
         case List(_) => r.Items?
         case Get(_, _) => r.One? || r == Refused(404)
         case Create(org, user, name, description, id, now) =>
           r == if user == "" then Refused(401) else if name == "" then Refused(422)
                else if SomewhereSeen(s, id) then Refused(500)
                else One(Project(id, org, name, description, user, now, now))
         case Update(org, _, id, name, description, now) =>
           r == if name == "" then Refused(422)
                else if !Seen(s, org, id).One? then Refused(500)
                else One(Seen(s, org, id).project.(name := name, description := description, updatedAt := now))
         case Delete(org, _, id, _) => r == if Seen(s, org, id).One? then NoContent else Refused(404)
         case Other(_, _) => r == NoContent
  }

  /** In every run, each request is granted or refused exactly as what a Get shows before it calls for. */
  lemma EveryAnswerBySight(reqs: seq<Request>, req: Request)
    ensures Answers(After(EMPTY, reqs), req, Handle(After(EMPTY, reqs), req).response)
  {
    hide After;
    var s := After(EMPTY, reqs);
    RunHealthy(EMPTY, reqs);
    if req.Create? && req.org != "" {
      TakenIffSeen(s, req.id);
    } else if (req.Get? || req.Update? || req.Delete?) && req.org != "" {
      GetSound(s.table, req.org, req.id);
    }
  }

  lemma TakenIffSeen(s: Store, id: Id)
    requires Healthy(s)
    ensures IdTaken(s.table, id) <==> SomewhereSeen(s, id)
  {
    hide Handle;
    if r :| r in s.table && r.id == id {
      SeenIsRow(s, r.org, id);
    }
    forall org | org != "" && Seen(s, org, id).One?
      ensures IdTaken(s.table, id)
    {
      SeenIsRow(s, org, id);
    }
  }

  // ---------- Recording ----------

  /** What the log gains from a request: one event for each granted write, none for anything else about projects. */
  function Recorded(s: Store, req: Request): seq<Event> {
    var r := Handle(s, req).response;
    if r.Refused? then []
    else match req
         case Create(org, user, _, _, id, now) =>
           [Event(org, user, "project.created", "project", id, now, None, Some(Shown(r)))]
         case Update(org, user, id, _, _, now) =>
           [Event(org, user, "project.updated", "project", id, now, Some(Shown(Seen(s, org, id))), Some(Shown(r)))]
         case Delete(org, user, id, now) =>
           [Event(org, user, "project.deleted", "project", id, now, Some(Shown(Seen(s, org, id))), None)]
         case Other(_, e) => if e.entity == "project" then [] else [e]
         case _ => []
  }

  function Shown(r: Response): Project {
    if r.One? then r.project else ZERO
  }

  lemma EveryWriteIsRecorded(s: Store, req: Request)
    ensures Handle(s, req).store.log == s.log + Recorded(s, req)
  {
  }
}
