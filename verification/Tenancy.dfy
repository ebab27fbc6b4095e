/** Projects and tasks of a tenant under their two controllers. Each request is one step: the
    controller's hook, then the row write. */
module Tenancy {
  import opened Prelude

  datatype ProjectStatus = Active | Archived

  /** The hook for tasks knows a fourth status, archived, that the schema's enum does not list. */
  datatype TaskStatus = Todo | InProgress | Done | Shelved

  datatype Project = Project(org: nat, status: ProjectStatus, live: bool)

  datatype Task = Task(project: nat, status: TaskStatus, assignee: Option<nat>, live: bool)

  datatype User = User(id: nat, role: string)

  /** Rows are never removed, only marked deleted, so a row's place is its id. */
  datatype Board = Board(projects: seq<Project>, tasks: seq<Task>)

  /** `admitted` stands for the checks a create makes on other tables (plan limit, name,
      assignee's organisation) and `written` for the database taking the row. An update writes
      the row `id` of its path; its hook reads the row `named` in a header of the client's
      making, which nothing ties to the path. */
  datatype Request =
    | CreateProject(user: Option<User>, tenant: Option<nat>, initial: Option<ProjectStatus>,
                    admitted: bool, written: bool)
    | UpdateProject(id: nat, named: Option<nat>, user: Option<User>, toStatus: Option<ProjectStatus>, written: bool)
    | DeleteProject(id: nat, written: bool)
    | CreateTask(user: Option<User>, tenant: Option<nat>, project: Option<nat>, assignee: Option<nat>,
                 admitted: bool, written: bool)
    | UpdateTask(id: nat, named: Option<nat>, user: Option<User>, newStatus: Option<TaskStatus>,
                 assignTo: Option<Option<nat>>, written: bool)
    | DeleteTask(id: nat, written: bool)

  datatype Refusal =
    | Auth
    | Internal
    | NotFound
    | NotWritten
    | Validation(code: string)

  type Outcome = Result<(), Refusal>

  // ----- The hooks ----------------------------------------------------------

  predicate IsAdmin(u: User) {
    u.role == "admin" || u.role == "super_admin"
  }

  predicate Busy(t: Task, project: nat) {
    t.project == project && t.status == InProgress && t.live
  }

  /** SELECT COUNT(*) of the live tasks in progress in a project. */
  function BusyCount(tasks: seq<Task>, project: nat): nat {
    if tasks == [] then 0
    else BusyCount(tasks[..|tasks| - 1], project) + if Busy(tasks[|tasks| - 1], project) then 1 else 0
  }

  function ProjectHook(b: Board, named: Option<nat>, user: Option<User>, status: Option<ProjectStatus>): Outcome {
    if status.None? then Ok(())
    else if named.None? || named.value >= |b.projects| then Err(Internal)
    else if b.projects[named.value].status == Archived && status.value == Active then
      Err(Validation("invalid_transition"))
    else if status.value == Archived then
      if user.None? || !IsAdmin(user.value) then Err(Auth)
      else if BusyCount(b.tasks, named.value) > 0 then Err(Validation("has_in_progress_tasks"))
      else Ok(())
    else Ok(())
  }

  function NewTaskHook(b: Board, user: Option<User>, tenant: Option<nat>, project: Option<nat>,
                       admitted: bool): Outcome {
    if tenant.None? then Err(Auth)
    else if project.None? then Err(Validation("required"))
    else if project.value >= |b.projects| then Err(Validation("not_found"))
    else
      var p := b.projects[project.value];
      if !p.live || p.org != tenant.value then Err(Validation("not_found"))
      else if p.status == Archived then Err(Validation("project_archived"))
      else if !admitted then Err(Validation("invalid_assignee"))
      else if user.None? then Err(Auth)
      else Ok(())
  }

  predicate Allowed(from: TaskStatus, to: TaskStatus) {
    from == to || (from, to) in {(Todo, InProgress), (InProgress, Done), (Done, Shelved)}
  }

  function TaskHook(b: Board, named: Option<nat>, user: Option<User>, status: Option<TaskStatus>,
                    reassigns: bool): Outcome {
    if named.None? || named.value >= |b.tasks| || b.tasks[named.value].project >= |b.projects| then Err(Internal)
    else
      var t := b.tasks[named.value];
      if b.projects[t.project].status == Archived then Err(Validation("project_archived"))
      else if t.status == Done && reassigns then Err(Validation("task_done"))
      else if status.None? then Ok(())
      else if !Allowed(t.status, status.value) then Err(Validation("invalid_transition"))
      else if status.value == Done && (user.None? || (t.assignee != Some(user.value.id) && !IsAdmin(user.value))) then
        Err(Auth)
      else Ok(())
  }

  function OrElse<T>(o: Option<T>, t: T): T {
    if o.Some? then o.value else t
  }

  function Step(b: Board, r: Request): (Board, Outcome) {
    match r
    case CreateProject(user, tenant, initial, admitted, written) =>
      if tenant.None? then (b, Err(Auth))
      else if !admitted then (b, Err(Validation("limit_exceeded")))
      else if user.None? then (b, Err(Auth))
      else if !written then (b, Err(NotWritten))
      else (b.(projects := b.projects + [Project(tenant.value, OrElse(initial, Active), true)]), Ok(()))
    case UpdateProject(id, named, user, toStatus, written) =>
      var checked := ProjectHook(b, named, user, toStatus);
      if checked.Err? then (b, checked)
      else if id >= |b.projects| || !b.projects[id].live then (b, Err(NotFound))
      else if !written then (b, Err(NotWritten))
      else
        var p := b.projects[id];
        (b.(projects := b.projects[id := p.(status := OrElse(toStatus, p.status))]), Ok(()))
    case DeleteProject(id, written) =>
      if id >= |b.projects| || !b.projects[id].live then (b, Err(NotFound))
      else if !written then (b, Err(NotWritten))
      else (b.(projects := b.projects[id := b.projects[id].(live := false)]), Ok(()))
    case CreateTask(user, tenant, project, assignee, admitted, written) =>
      var checked := NewTaskHook(b, user, tenant, project, admitted);
      if checked.Err? then (b, checked)
      else if !written then (b, Err(NotWritten))
      else (b.(tasks := b.tasks + [Task(project.value, Todo, assignee, true)]), Ok(()))
    case UpdateTask(id, named, user, newStatus, assignTo, written) =>
      var checked := TaskHook(b, named, user, newStatus, assignTo.Some?);
      if checked.Err? then (b, checked)
      else if id >= |b.tasks| || !b.tasks[id].live then (b, Err(NotFound))
      else if !written || newStatus == Some(Shelved) then (b, Err(NotWritten))
      else
        var t := b.tasks[id];
        var u := t.(status := OrElse(newStatus, t.status), assignee := OrElse(assignTo, t.assignee));
        (b.(tasks := b.tasks[id := u]), Ok(()))
    case DeleteTask(id, written) =>
      if id >= |b.tasks| || !b.tasks[id].live then (b, Err(NotFound))
      else if !written then (b, Err(NotWritten))
      else (b.(tasks := b.tasks[id := b.tasks[id].(live := false)]), Ok(()))
  }

  function Run(b: Board, rs: seq<Request>): Board {
    if rs == [] then b else Step(Run(b, rs[..|rs| - 1]), rs[|rs| - 1]).0
  }

  const EMPTY: Board := Board([], [])

  // ----- The controllers as they work ---------------------------------------

  class Tables {
    var projects: seq<Project>
    var tasks: seq<Task>

    constructor ()
      ensures Now() == EMPTY
    {
      projects, tasks := [], [];
    }

    function Now(): Board
      reads this
    {
      Board(projects, tasks)
    }

    method CountBusy(project: nat) returns (n: nat)
      ensures n == BusyCount(tasks, project)
    {
      n := 0;
      for k := 0 to |tasks|
        invariant n == BusyCount(tasks[..k], project)
      {
        assert tasks[..k + 1][..k] == tasks[..k];
        if Busy(tasks[k], project) {
          n := n + 1;
        }
      }
      assert tasks[..|tasks|] == tasks;
    }

    /** Before a project is changed: reads the project the header names. */
    method EnforceProjectStatus(named: Option<nat>, user: Option<User>, toStatus: Option<ProjectStatus>)
      returns (res: Outcome)
      ensures res == ProjectHook(Now(), named, user, toStatus)
    {
      if toStatus.None? {
        return Ok(());
      }
      if named.None? || named.value >= |projects| {
        return Err(Internal);
      }
      if projects[named.value].status == Archived && toStatus.value == Active {
        return Err(Validation("invalid_transition"));
      }
      if toStatus.value == Archived {
        if user.None? || !IsAdmin(user.value) {
          return Err(Auth);
        }
        var inProgress := CountBusy(named.value);
        if inProgress > 0 {
          return Err(Validation("has_in_progress_tasks"));
        }
      }
      return Ok(());
    }

    method ChangeProject(id: nat, named: Option<nat>, user: Option<User>, toStatus: Option<ProjectStatus>,
                         written: bool)
      returns (res: Outcome)
      modifies this
      ensures (Now(), res) == Step(old(Now()), UpdateProject(id, named, user, toStatus, written))
    {
      res := EnforceProjectStatus(named, user, toStatus);
      if res.Err? {
        return;
      }
      if id >= |projects| || !projects[id].live {
        return Err(NotFound);
      }
      if !written {
        return Err(NotWritten);
      }
      projects := projects[id := projects[id].(status := OrElse(toStatus, projects[id].status))];
    }

    method AddTask(user: Option<User>, tenant: Option<nat>, project: Option<nat>, assignee: Option<nat>,
                   admitted: bool, written: bool)
      returns (res: Outcome)
      modifies this
      ensures (Now(), res) == Step(old(Now()), CreateTask(user, tenant, project, assignee, admitted, written))
    {
      if tenant.None? {
        return Err(Auth);
      }
      if project.None? {
        return Err(Validation("required"));
      }
      var p := project.value;
      if p >= |projects| || !projects[p].live || projects[p].org != tenant.value {
        return Err(Validation("not_found"));
      }
      if projects[p].status == Archived {
        return Err(Validation("project_archived"));
      }
      if !admitted {
        return Err(Validation("invalid_assignee"));
      }
      if user.None? {
        return Err(Auth);
      }
      if !written {
        return Err(NotWritten);
      }
      tasks := tasks + [Task(p, Todo, assignee, true)];
      return Ok(());
    }

    /** Before a task is changed: reads the task the header names, and its project. */
    method EnforceTaskRules(named: Option<nat>, user: Option<User>, newStatus: Option<TaskStatus>, reassigns: bool)
      returns (res: Outcome)
      ensures res == TaskHook(Now(), named, user, newStatus, reassigns)
    {
      if named.None? || named.value >= |tasks| || tasks[named.value].project >= |projects| {
        return Err(Internal);
      }
      var t := tasks[named.value];
      if projects[t.project].status == Archived {
        return Err(Validation("project_archived"));
      }
      if t.status == Done && reassigns {
        return Err(Validation("task_done"));
      }
      if newStatus.Some? {
        if !Allowed(t.status, newStatus.value) {
          return Err(Validation("invalid_transition"));
        }
        if newStatus.value == Done {
          if user.None? {
            return Err(Auth);
          }
          var isAssignee := t.assignee.Some? && t.assignee.value == user.value.id;
          if !isAssignee && !IsAdmin(user.value) {
            return Err(Auth);
          }
        }
      }
      return Ok(());
    }

    method ChangeTask(id: nat, named: Option<nat>, user: Option<User>, newStatus: Option<TaskStatus>,
                      assignTo: Option<Option<nat>>, written: bool)
      returns (res: Outcome)
      modifies this
      ensures (Now(), res) == Step(old(Now()), UpdateTask(id, named, user, newStatus, assignTo, written))
    {
      res := EnforceTaskRules(named, user, newStatus, assignTo.Some?);
      if res.Err? {
        return;
      }
      if id >= |tasks| || !tasks[id].live {
        return Err(NotFound);
      }
      if !written || newStatus == Some(Shelved) {
        return Err(NotWritten);
      }
      var t := tasks[id].(status := OrElse(newStatus, tasks[id].status));
      if assignTo.Some? {
        t := t.(assignee := assignTo.value);
      }
      tasks := tasks[id := t];
    }
  }

  // ----- Who may do what -----------------------------------------------------

  /** The project hook lets pass exactly requests that set no status, and those on a known project
      that do not reopen an archived one, archiving only for an admin and with nothing in
      progress. */
  lemma ProjectHookExactly(b: Board, named: Option<nat>, user: Option<User>, status: Option<ProjectStatus>)
    ensures var known := named.Some? && named.value < |b.projects|;
            var out := ProjectHook(b, named, user, status);
            && (out.Ok? <==>
                  (status.Some? ==>
                    && known
                    && (status == Some(Active) ==> b.projects[named.value].status == Active)
                    && (status == Some(Archived) ==>
                          && user.Some? && user.value.role in {"admin", "super_admin"}
                          && forall k :: 0 <= k < |b.tasks| && b.tasks[k].project == named.value && b.tasks[k].live ==>
                               b.tasks[k].status != InProgress)))
            && (out.Err? ==>
                  out.error in {Internal, Auth, Validation("invalid_transition"), Validation("has_in_progress_tasks")})
            && (out == Err(Internal) <==> status.Some? && !known)
            && (out == Err(Auth) <==>
                  status == Some(Archived) && known && (user.None? || user.value.role !in {"admin", "super_admin"}))
            && (out == Err(Validation("invalid_transition")) <==>
                  status == Some(Active) && known && b.projects[named.value].status == Archived)
  {
    if named.Some? {
      NothingBusy(b.tasks, named.value);
    }
  }

  /** The task hook lets pass exactly requests on a known task of a project that is not archived
      that do not reassign a done task, and move it only one step on or not at all, to done only
      for its assignee or an admin. */
  lemma TaskHookExactly(b: Board, named: Option<nat>, user: Option<User>, status: Option<TaskStatus>, reassigns: bool)
    ensures var known := named.Some? && named.value < |b.tasks| && b.tasks[named.value].project < |b.projects|;
            var out := TaskHook(b, named, user, status, reassigns);
            && (out == Err(Internal) <==> !known)
            && (known ==>
                  var t := b.tasks[named.value];
                  && (out.Ok? <==>
                        && b.projects[t.project].status != Archived
                        && !(t.status == Done && reassigns)
                        && (status.Some? ==> status.value == t.status || Rank(status.value) == Rank(t.status) + 1)
                        && (status == Some(Done) ==>
                              && user.Some?
                              && (t.assignee == Some(user.value.id) || user.value.role in {"admin", "super_admin"})))
                  && (b.projects[t.project].status == Archived ==> out == Err(Validation("project_archived")))
                  && (out == Err(Auth) ==> status == Some(Done)))
  {
  }

  /** A task is created exactly for a signed-in user of a tenant, in a live project of it that is
      not archived; it starts to do. */
  lemma CreateTaskExactly(b: Board, r: Request)
    requires r.CreateTask?
    ensures Accepted(b, r) <==>
            && r.tenant.Some? && r.user.Some? && r.project.Some? && r.admitted && r.written
            && r.project.value < |b.projects| && b.projects[r.project.value].live
            && b.projects[r.project.value].org == r.tenant.value && b.projects[r.project.value].status != Archived
    ensures var c := Step(b, r).0;
            if Accepted(b, r) then c == Board(b.projects, b.tasks + [Task(r.project.value, Todo, r.assignee, true)])
            else c == b
  {
  }

  /** Why a project is not created: the first of these that is the case. */
  lemma NewProjectRefusals(b: Board, r: Request)
    requires r.CreateProject?
    ensures var out := Step(b, r).1;
            && (out == Err(Validation("limit_exceeded")) <==> r.tenant.Some? && !r.admitted)
            && (out == Err(Auth) <==> r.tenant.None? || (r.admitted && r.user.None?))
            && (out == Err(NotWritten) <==> r.tenant.Some? && r.admitted && r.user.Some? && !r.written)
  {
  }

  /** Why a task is not created: the first of these that is the case. */
  lemma NewTaskRefusals(b: Board, r: Request)
    requires r.CreateTask?
    ensures var out := Step(b, r).1;
            var given := r.tenant.Some? && r.project.Some?;
            var known := given && HasProject(b, r.project.value) && b.projects[r.project.value].org == r.tenant.value;
            var open := known && b.projects[r.project.value].status != Archived;
            && (out == Err(Validation("required")) <==> r.tenant.Some? && r.project.None?)
            && (out == Err(Validation("not_found")) <==> given && !known)
            && (out == Err(Validation("project_archived")) <==> known && !open)
            && (out == Err(Validation("invalid_assignee")) <==> open && !r.admitted)
            && (out == Err(Auth) <==> r.tenant.None? || (open && r.admitted && r.user.None?))
            && (out == Err(NotWritten) <==> open && r.admitted && r.user.Some? && !r.written)
  {
  }

  /** Why the task hook refuses a known task of a project that is not archived. */
  lemma TaskRefusals(b: Board, named: Option<nat>, user: Option<User>, status: Option<TaskStatus>, reassigns: bool)
    requires named.Some? && named.value < |b.tasks| && b.tasks[named.value].project < |b.projects|
    requires b.projects[b.tasks[named.value].project].status != Archived
    ensures var out := TaskHook(b, named, user, status, reassigns);
            var t := b.tasks[named.value];
            var frozen := t.status == Done && reassigns;
            var moves := status.Some? ==> status.value == t.status || Rank(status.value) == Rank(t.status) + 1;
            && (out == Err(Validation("task_done")) <==> frozen)
            && (out == Err(Validation("invalid_transition")) <==> !frozen && !moves)
            && (out == Err(Auth) <==>
                  && !frozen && moves && status == Some(Done)
                  && (user.None?
                      || (t.assignee != Some(user.value.id) && user.value.role !in {"admin", "super_admin"})))
  {
  }

  /** What the other requests write: the path's row, and only what they name. */
  lemma WritesOneRow(b: Board, r: Request)
    requires !r.CreateTask?
    ensures var c := Step(b, r).0;
            if !Accepted(b, r) then c == b
            else match r
              case CreateProject(_, tenant, initial, _, _) =>
                && tenant.Some? && c.tasks == b.tasks
                && c.projects
                   == b.projects + [Project(tenant.value, if initial.Some? then initial.value else Active, true)]
              case UpdateProject(id, _, _, toStatus, _) =>
                && id < |b.projects| && b.projects[id].live && c.tasks == b.tasks
                && c.projects
                   == b.projects[id := Project(b.projects[id].org,
                                               if toStatus.Some? then toStatus.value else b.projects[id].status, true)]
              case DeleteProject(id, _) =>
                && id < |b.projects| && b.projects[id].live && c.tasks == b.tasks
                && c.projects == b.projects[id := Project(b.projects[id].org, b.projects[id].status, false)]
              case UpdateTask(id, _, _, newStatus, assignTo, _) =>
                && id < |b.tasks| && b.tasks[id].live && newStatus != Some(Shelved) && c.projects == b.projects
                && c.tasks == b.tasks[id := Task(b.tasks[id].project,
                                                 if newStatus.Some? then newStatus.value else b.tasks[id].status,
                                                 if assignTo.Some? then assignTo.value else b.tasks[id].assignee, true)]
              case DeleteTask(id, _) =>
                && id < |b.tasks| && b.tasks[id].live && c.projects == b.projects
                && c.tasks == b.tasks[id := Task(b.tasks[id].project, b.tasks[id].status, b.tasks[id].assignee, false)]
              case _ => true
  {
  }

  predicate HasProject(b: Board, id: nat) {
    id < |b.projects| && b.projects[id].live
  }

  predicate HasTask(b: Board, id: nat) {
    id < |b.tasks| && b.tasks[id].live
  }

  /** A request is accepted exactly when the row it writes is there, its hook lets it pass and the
      database writes it; a refusal by the hook is passed on, and one by the database is given
      only for a row that is there. */
  lemma AcceptedExactly(b: Board, r: Request)
    ensures Accepted(b, r) ==> r.written
    ensures r.CreateProject? ==> (Accepted(b, r) <==> r.user.Some? && r.tenant.Some? && r.admitted && r.written)
    ensures r.DeleteProject? ==>
              && (Accepted(b, r) <==> HasProject(b, r.id) && r.written)
              && (Step(b, r).1 == Err(NotFound) <==> !HasProject(b, r.id))
              && (Step(b, r).1 == Err(NotWritten) <==> HasProject(b, r.id) && !r.written)
    ensures r.DeleteTask? ==>
              && (Accepted(b, r) <==> HasTask(b, r.id) && r.written)
              && (Step(b, r).1 == Err(NotFound) <==> !HasTask(b, r.id))
              && (Step(b, r).1 == Err(NotWritten) <==> HasTask(b, r.id) && !r.written)
    ensures r.UpdateProject? ==>
              var hook := ProjectHook(b, r.named, r.user, r.toStatus);
              && (Accepted(b, r) <==> hook.Ok? && HasProject(b, r.id) && r.written)
              && (hook.Err? ==> Step(b, r).1 == hook)
              && (hook.Ok? ==> (Step(b, r).1 == Err(NotWritten) <==> HasProject(b, r.id) && !r.written))
    ensures r.UpdateTask? ==>
              var hook := TaskHook(b, r.named, r.user, r.newStatus, r.assignTo.Some?);
              && (Accepted(b, r) <==> hook.Ok? && HasTask(b, r.id) && r.written && r.newStatus != Some(Shelved))
              && (hook.Err? ==> Step(b, r).1 == hook)
              && (hook.Ok? ==> (Step(b, r).1 == Err(NotFound) <==> !HasTask(b, r.id)))
    ensures !Accepted(b, r) ==> Step(b, r).0 == b
  {
  }

  // ----- Busy tasks of archived projects -----------------------------------

  lemma {:induction false} NothingBusy(tasks: seq<Task>, project: nat)
    ensures BusyCount(tasks, project) == 0 <==> forall k :: 0 <= k < |tasks| ==> !Busy(tasks[k], project)
  {
    if tasks != [] {
      var n := |tasks| - 1;
      NothingBusy(tasks[..n], project);
      assert forall k :: 0 <= k < n ==> tasks[..n][k] == tasks[k];
      if BusyCount(tasks, project) == 0 {
        assert !Busy(tasks[n], project);
        forall k | 0 <= k < |tasks|
          ensures !Busy(tasks[k], project)
        {
          if k < n {
            assert tasks[k] == tasks[..n][k];
          }
        }
      }
    }
  }

  /** The places of the busy tasks of a project. */
  ghost function BusyPlaces(tasks: seq<Task>, project: nat): set<nat> {
    set k: nat | k < |tasks| && Busy(tasks[k], project)
  }

  lemma {:induction false} BusyCounted(tasks: seq<Task>, project: nat)
    ensures BusyCount(tasks, project) == |BusyPlaces(tasks, project)|
  {
    if tasks == [] {
      assert BusyPlaces(tasks, project) == {};
    } else {
      var n := |tasks| - 1;
      BusyCounted(tasks[..n], project);
      assert BusyPlaces(tasks, project)
             == BusyPlaces(tasks[..n], project) + if Busy(tasks[n], project) then {n} else {};
    }
  }

  ghost predicate TaskFits(b: Board, t: Task) {
    && t.project < |b.projects|
    && t.status != Shelved
    && (Busy(t, t.project) ==> b.projects[t.project].status != Archived)
  }

  /** No live task of an archived project is in progress. */
  ghost predicate Quiet(b: Board) {
    forall k :: 0 <= k < |b.tasks| ==> TaskFits(b, b.tasks[k])
  }

  predicate Accepted(b: Board, r: Request) {
    Step(b, r).1.Ok?
  }

  /** The hook was told about the row that is then written. */
  predicate Told(b: Board, r: Request) {
    Accepted(b, r) && (r.UpdateProject? || r.UpdateTask?) ==> r.named == Some(r.id)
  }

  ghost predicate ArchivedIn(b: Board, p: nat) {
    p < |b.projects| && b.projects[p].status == Archived
  }

  /** What the hooks would have to check of the rows that are written: an archived project has
      no busy task, and a task put in progress is in a project that is not archived. */
  ghost predicate KeepsQuiet(b: Board, r: Request) {
    Accepted(b, r) ==>
      match r
      case UpdateProject(id, _, _, toStatus, _) => toStatus == Some(Archived) ==> BusyCount(b.tasks, id) == 0
      case UpdateTask(id, _, _, newStatus, _, _) =>
        newStatus == Some(InProgress) ==> !ArchivedIn(b, b.tasks[id].project)
      case _ => true
  }

  lemma ProjectStepQuiet(b: Board, r: Request)
    requires Quiet(b) && r.UpdateProject? && Accepted(b, r)
    ensures Quiet(Step(b, r).0) <==> KeepsQuiet(b, r)
  {
    var c := Step(b, r).0;
    NothingBusy(b.tasks, r.id);
    forall k | 0 <= k < |c.tasks|
      ensures TaskFits(c, c.tasks[k]) <==> r.toStatus != Some(Archived) || !Busy(c.tasks[k], r.id)
    {
      assert TaskFits(b, b.tasks[k]);
    }
  }

  lemma TaskStepQuiet(b: Board, r: Request)
    requires Quiet(b) && r.UpdateTask? && Accepted(b, r)
    ensures Quiet(Step(b, r).0) <==> KeepsQuiet(b, r)
  {
    var c := Step(b, r).0;
    assert TaskFits(b, b.tasks[r.id]);
    assert TaskFits(c, c.tasks[r.id]) <==> KeepsQuiet(b, r);
    forall k | 0 <= k < |c.tasks| && k != r.id
      ensures TaskFits(c, c.tasks[k])
    {
      assert TaskFits(b, b.tasks[k]);
    }
  }

  /** One request keeps the board quiet exactly when it passes that check. */
  lemma StepQuietExactly(b: Board, r: Request)
    requires Quiet(b)
    ensures Quiet(Step(b, r).0) <==> KeepsQuiet(b, r)
  {
    if r.UpdateProject? && Accepted(b, r) {
      ProjectStepQuiet(b, r);
    } else if r.UpdateTask? && Accepted(b, r) {
      TaskStepQuiet(b, r);
    } else {
      var c := Step(b, r).0;
      forall k | 0 <= k < |c.tasks|
        ensures TaskFits(c, c.tasks[k])
      {
        assert k < |b.tasks| ==> TaskFits(b, b.tasks[k]);
      }
    }
  }

  lemma ToldKeepsQuiet(b: Board, r: Request)
    requires Told(b, r)
    ensures KeepsQuiet(b, r)
  {
  }

  // ----- Runs ---------------------------------------------------------------

  ghost predicate AlwaysQuiet(rs: seq<Request>) {
    forall k :: 0 <= k <= |rs| ==> Quiet(Run(EMPTY, rs[..k]))
  }

  ghost predicate EachKeepsQuiet(rs: seq<Request>) {
    forall k :: 0 <= k < |rs| ==> KeepsQuiet(Run(EMPTY, rs[..k]), rs[k])
  }

  /** Every accepted update of a run names the row it writes. */
  ghost predicate EachTold(b: Board, rs: seq<Request>) {
    forall k :: 0 <= k < |rs| ==> Told(Run(b, rs[..k]), rs[k])
  }

  lemma {:induction false} RunOneMore(b: Board, rs: seq<Request>, k: nat)
    requires k < |rs|
    ensures Run(b, rs[..k + 1]) == Step(Run(b, rs[..k]), rs[k]).0
  {
    assert rs[..k + 1][..k] == rs[..k];
  }

  lemma {:induction false} QuietUpTo(rs: seq<Request>, k: nat)
    requires EachKeepsQuiet(rs) && k <= |rs|
    ensures Quiet(Run(EMPTY, rs[..k]))
  {
    if k > 0 {
      QuietUpTo(rs, k - 1);
      RunOneMore(EMPTY, rs, k - 1);
      assert KeepsQuiet(Run(EMPTY, rs[..k - 1]), rs[k - 1]);
      StepQuietExactly(Run(EMPTY, rs[..k - 1]), rs[k - 1]);
    }
  }

  /** Main result, whole runs: no state of a run has a live task of an archived project in
      progress exactly when every accepted update passes the check on the row it writes. */
  lemma RunQuietExactly(rs: seq<Request>)
    ensures AlwaysQuiet(rs) <==> EachKeepsQuiet(rs)
  {
    if EachKeepsQuiet(rs) {
      forall k: nat | k <= |rs|
        ensures Quiet(Run(EMPTY, rs[..k]))
      {
        QuietUpTo(rs, k);
      }
    }
    if AlwaysQuiet(rs) {
      forall k: nat | k < |rs|
        ensures KeepsQuiet(Run(EMPTY, rs[..k]), rs[k])
      {
        assert Quiet(Run(EMPTY, rs[..k])) && Quiet(Run(EMPTY, rs[..k + 1]));
        RunOneMore(EMPTY, rs, k);
        StepQuietExactly(Run(EMPTY, rs[..k]), rs[k]);
      }
    }
  }

  /** When every accepted update names the row it writes, every state is quiet. */
  lemma RunQuiet(rs: seq<Request>)
    requires EachTold(EMPTY, rs)
    ensures AlwaysQuiet(rs)
  {
    forall k: nat | k < |rs|
      ensures KeepsQuiet(Run(EMPTY, rs[..k]), rs[k])
    {
      assert Told(Run(EMPTY, rs[..k]), rs[k]);
      ToldKeepsQuiet(Run(EMPTY, rs[..k]), rs[k]);
    }
    RunQuietExactly(rs);
  }

  // ----- Tasks climb ---------------------------------------------------------

  function Rank(s: TaskStatus): nat {
    match s
    case Todo => 0
    case InProgress => 1
    case Done => 2
    case Shelved => 3
  }

  /** What one request does to a task in any case: it stays in its project and does not come
      back from deletion. */
  predicate Stays(t: Task, u: Task) {
    u.project == t.project && (u.live ==> t.live)
  }

  /** What the task rules want besides: at most one rank up, and a done task not reassigned. */
  predicate Climbs(t: Task, u: Task) {
    Rank(t.status) <= Rank(u.status) <= Rank(t.status) + 1 && (t.status == Done ==> u.assignee == t.assignee)
  }

  lemma StepMovesTasks(b: Board, r: Request)
    ensures |b.tasks| <= |Step(b, r).0.tasks|
    ensures forall k :: 0 <= k < |b.tasks| ==> Stays(b.tasks[k], Step(b, r).0.tasks[k])
  {
  }

  /** The task rules, read off the task that is written. */
  predicate KeepsRanks(b: Board, r: Request) {
    Accepted(b, r) && r.UpdateTask? ==>
      var t := b.tasks[r.id];
      && (r.newStatus.Some? ==> Allowed(t.status, r.newStatus.value))
      && (t.status == Done && r.assignTo.Some? ==> r.assignTo.value == t.assignee)
  }

  ghost predicate AllClimb(b: Board, c: Board) {
    |b.tasks| <= |c.tasks| && forall k :: 0 <= k < |b.tasks| ==> Climbs(b.tasks[k], c.tasks[k])
  }

  /** One request moves tasks by the rules exactly when it follows them on the task it writes. */
  lemma StepClimbsExactly(b: Board, r: Request)
    ensures AllClimb(b, Step(b, r).0) <==> KeepsRanks(b, r)
  {
    if r.UpdateTask? && Accepted(b, r) {
      assert Climbs(b.tasks[r.id], Step(b, r).0.tasks[r.id]) <==> KeepsRanks(b, r);
    }
  }

  ghost predicate EachKeepsRanks(b: Board, rs: seq<Request>) {
    forall k :: 0 <= k < |rs| ==> KeepsRanks(Run(b, rs[..k]), rs[k])
  }

  /** Each state of a run follows from the one before by the task rules. */
  ghost predicate AlwaysClimbs(b: Board, rs: seq<Request>) {
    forall k :: 0 <= k < |rs| ==> ClimbsAt(b, rs, k)
  }

  ghost predicate ClimbsAt(b: Board, rs: seq<Request>, k: nat)
    requires k < |rs|
  {
    AllClimb(Run(b, rs[..k]), Run(b, rs[..k + 1]))
  }

  lemma {:induction false} ClimbsAtExactly(b: Board, rs: seq<Request>, k: nat)
    requires k < |rs|
    ensures ClimbsAt(b, rs, k) <==> KeepsRanks(Run(b, rs[..k]), rs[k])
  {
    RunOneMore(b, rs, k);
    StepClimbsExactly(Run(b, rs[..k]), rs[k]);
  }

  lemma {:induction false} RanksUpTo(b: Board, rs: seq<Request>, k: nat)
    requires EachKeepsRanks(b, rs) && k <= |rs|
    ensures var c := Run(b, rs[..k]);
            && |b.tasks| <= |c.tasks|
            && forall i :: 0 <= i < |b.tasks| ==>
                 Rank(b.tasks[i].status) <= Rank(c.tasks[i].status) <= Rank(b.tasks[i].status) + k
  {
    if k > 0 {
      RanksUpTo(b, rs, k - 1);
      RunOneMore(b, rs, k - 1);
      assert KeepsRanks(Run(b, rs[..k - 1]), rs[k - 1]);
      StepClimbsExactly(Run(b, rs[..k - 1]), rs[k - 1]);
    }
  }

  /** Main result: every step of a run follows the task rules exactly when every accepted update
      follows them on the task it writes; then no task loses a rank, or gains more than there
      are requests. */
  lemma {:induction false} TasksOnlyAdvance(b: Board, rs: seq<Request>)
    ensures AlwaysClimbs(b, rs) <==> EachKeepsRanks(b, rs)
    ensures EachKeepsRanks(b, rs) ==>
              var c := Run(b, rs);
              && |b.tasks| <= |c.tasks|
              && forall i :: 0 <= i < |b.tasks| ==>
                   Rank(b.tasks[i].status) <= Rank(c.tasks[i].status) <= Rank(b.tasks[i].status) + |rs|
  {
    forall k: nat | k < |rs|
      ensures ClimbsAt(b, rs, k) <==> KeepsRanks(Run(b, rs[..k]), rs[k])
    {
      ClimbsAtExactly(b, rs, k);
    }
    if EachKeepsRanks(b, rs) {
      RanksUpTo(b, rs, |rs|);
      assert rs[..|rs|] == rs;
    }
  }

  /** Whatever is named, tasks never change project or come back from deletion. */
  lemma {:induction false} TasksStay(b: Board, rs: seq<Request>)
    ensures |b.tasks| <= |Run(b, rs).tasks|
    ensures forall k :: 0 <= k < |b.tasks| ==> Stays(b.tasks[k], Run(b, rs).tasks[k])
  {
    if rs != [] {
      var n := |rs| - 1;
      TasksStay(b, rs[..n]);
      StepMovesTasks(Run(b, rs[..n]), rs[n]);
    }
  }

  // ----- Archived projects ---------------------------------------------------

  /** The update leaves the task as it is. */
  predicate Idle(t: Task, newStatus: Option<TaskStatus>, assignTo: Option<Option<nat>>) {
    OrElse(newStatus, t.status) == t.status && OrElse(assignTo, t.assignee) == t.assignee
  }

  /** The row that is written is not an archived project being reopened, nor one of its tasks
      being moved on or reassigned. */
  predicate KeepsFrozen(b: Board, r: Request, p: nat) {
    Accepted(b, r) ==>
      match r
      case UpdateProject(id, _, _, toStatus, _) => !(id == p && toStatus == Some(Active))
      case UpdateTask(id, _, _, newStatus, assignTo, _) =>
        b.tasks[id].project == p ==> Idle(b.tasks[id], newStatus, assignTo)
      case _ => true
  }

  ghost predicate Frozen(b: Board, c: Board, p: nat) {
    && ArchivedIn(c, p)
    && |b.tasks| <= |c.tasks|
    && (forall k :: 0 <= k < |b.tasks| && b.tasks[k].project == p ==> Same(b.tasks[k], c.tasks[k]))
    && (forall k :: |b.tasks| <= k < |c.tasks| ==> c.tasks[k].project != p)
  }

  predicate Same(t: Task, u: Task) {
    u.project == t.project && u.status == t.status && u.assignee == t.assignee
  }

  /** One request leaves an archived project and its tasks alone exactly when it passes. */
  lemma StepFreezesExactly(b: Board, r: Request, p: nat)
    requires ArchivedIn(b, p)
    ensures Frozen(b, Step(b, r).0, p) <==> KeepsFrozen(b, r, p)
  {
    if r.UpdateTask? && Accepted(b, r) {
      assert Same(b.tasks[r.id], Step(b, r).0.tasks[r.id]) <==> Idle(b.tasks[r.id], r.newStatus, r.assignTo);
    }
  }

  ghost predicate EachKeepsFrozen(b: Board, rs: seq<Request>, p: nat) {
    forall k :: 0 <= k < |rs| ==> KeepsFrozen(Run(b, rs[..k]), rs[k], p)
  }

  ghost predicate AlwaysFrozen(b: Board, rs: seq<Request>, p: nat) {
    forall k :: 0 <= k <= |rs| ==> Frozen(b, Run(b, rs[..k]), p)
  }

  lemma FrozenOnceMore(b: Board, c: Board, d: Board, p: nat)
    requires Frozen(b, c, p)
    requires |c.tasks| <= |d.tasks| && forall k :: 0 <= k < |c.tasks| ==> Stays(c.tasks[k], d.tasks[k])
    requires forall k :: 0 <= k < |b.tasks| ==> Stays(b.tasks[k], c.tasks[k])
    ensures Frozen(b, d, p) <==> Frozen(c, d, p)
  {
  }

  lemma {:induction false} FrozenStep(b: Board, rs: seq<Request>, p: nat, k: nat)
    requires k < |rs| && Frozen(b, Run(b, rs[..k]), p)
    ensures Frozen(b, Run(b, rs[..k + 1]), p) <==> KeepsFrozen(Run(b, rs[..k]), rs[k], p)
  {
    var c := Run(b, rs[..k]);
    RunOneMore(b, rs, k);
    TasksStay(b, rs[..k]);
    StepMovesTasks(c, rs[k]);
    FrozenOnceMore(b, c, Step(c, rs[k]).0, p);
    StepFreezesExactly(c, rs[k], p);
  }

  lemma {:induction false} FrozenUpTo(b: Board, rs: seq<Request>, p: nat, k: nat)
    requires ArchivedIn(b, p) && EachKeepsFrozen(b, rs, p) && k <= |rs|
    ensures Frozen(b, Run(b, rs[..k]), p)
  {
    if k > 0 {
      FrozenUpTo(b, rs, p, k - 1);
      assert KeepsFrozen(Run(b, rs[..k - 1]), rs[k - 1], p);
      FrozenStep(b, rs, p, k - 1);
    }
  }

  /** Main result: an archived project stays archived, with none of its tasks added, moved on
      or reassigned, in every state of a continuation exactly when each accepted update passes
      the check on the row it writes. */
  lemma ArchivedStaysFrozenExactly(b: Board, rs: seq<Request>, p: nat)
    requires ArchivedIn(b, p)
    ensures AlwaysFrozen(b, rs, p) <==> EachKeepsFrozen(b, rs, p)
  {
    if EachKeepsFrozen(b, rs, p) {
      forall k: nat | k <= |rs|
        ensures Frozen(b, Run(b, rs[..k]), p)
      {
        FrozenUpTo(b, rs, p, k);
      }
    }
    if AlwaysFrozen(b, rs, p) {
      forall k: nat | k < |rs|
        ensures KeepsFrozen(Run(b, rs[..k]), rs[k], p)
      {
        assert Frozen(b, Run(b, rs[..k]), p) && Frozen(b, Run(b, rs[..k + 1]), p);
        FrozenStep(b, rs, p, k);
      }
    }
  }

  lemma ToldKeepsFrozen(b: Board, r: Request, p: nat)
    requires Told(b, r) && ArchivedIn(b, p)
    ensures KeepsFrozen(b, r, p)
  {
  }

  lemma ToldKeepsRanks(b: Board, r: Request)
    requires Told(b, r)
    ensures KeepsRanks(b, r)
  {
  }

  lemma {:induction false} ToldFrozenUpTo(b: Board, rs: seq<Request>, p: nat, k: nat)
    requires ArchivedIn(b, p) && EachTold(b, rs) && k <= |rs|
    ensures Frozen(b, Run(b, rs[..k]), p)
  {
    if k > 0 {
      ToldFrozenUpTo(b, rs, p, k - 1);
      assert Told(Run(b, rs[..k - 1]), rs[k - 1]);
      ToldKeepsFrozen(Run(b, rs[..k - 1]), rs[k - 1], p);
      FrozenStep(b, rs, p, k - 1);
    }
  }

  /** When every accepted update names the row it writes, archived projects stay frozen and
      every step follows the task rules. */
  lemma ToldRunsFollowRules(b: Board, rs: seq<Request>)
    requires EachTold(b, rs)
    ensures forall p :: ArchivedIn(b, p) ==> AlwaysFrozen(b, rs, p)
    ensures AlwaysClimbs(b, rs)
  {
    forall p, k: nat | ArchivedIn(b, p) && k <= |rs|
      ensures Frozen(b, Run(b, rs[..k]), p)
    {
      ToldFrozenUpTo(b, rs, p, k);
    }
    forall k: nat | k < |rs|
      ensures KeepsRanks(Run(b, rs[..k]), rs[k])
    {
      assert Told(Run(b, rs[..k]), rs[k]);
      ToldKeepsRanks(Run(b, rs[..k]), rs[k]);
    }
    TasksOnlyAdvance(b, rs);
  }

  // ----- Naming another row --------------------------------------------------

  ghost predicate Reachable(b: Board) {
    exists rs :: Run(EMPTY, rs) == b
  }

  lemma Next(b: Board, r: Request, c: Board)
    requires Reachable(b) && Step(b, r).0 == c
    ensures Reachable(c)
  {
    var rs :| Run(EMPTY, rs) == b;
    assert (rs + [r])[..|rs|] == rs;
    assert Run(EMPTY, rs + [r]) == c;
  }

  const ADMIN: Option<User> := Some(User(0, "admin"))

  /** Two projects of one organisation, and these tasks. */
  function TwoProjects(first: ProjectStatus, second: ProjectStatus, tasks: seq<Task>): Board {
    Board([Project(0, first, true), Project(0, second, true)], tasks)
  }

  lemma TwoActive()
    ensures Reachable(TwoProjects(Active, Active, []))
  {
    assert Run(EMPTY, []) == EMPTY;
    var create := CreateProject(ADMIN, Some(0), None, true, true);
    var one := Board([Project(0, Active, true)], []);
    Next(EMPTY, create, one);
    Next(one, create, TwoProjects(Active, Active, []));
  }

  function TaskOf(project: nat, status: TaskStatus): Task {
    Task(project, status, None, true)
  }

  lemma OneBusyTask()
    ensures Reachable(TwoProjects(Active, Active, [TaskOf(0, InProgress)]))
  {
    TwoActive();
    var idle := TwoProjects(Active, Active, [TaskOf(0, Todo)]);
    Next(TwoProjects(Active, Active, []), CreateTask(ADMIN, Some(0), Some(0), None, true, true), idle);
    Next(idle, UpdateTask(0, Some(0), ADMIN, Some(InProgress), None, true),
         TwoProjects(Active, Active, [TaskOf(0, InProgress)]));
  }

  /** With the other project named, a project that has a task in progress is archived. */
  lemma NamingAnotherArchivesBusy()
    ensures var b := TwoProjects(Active, Active, [TaskOf(0, InProgress)]);
            var r := UpdateProject(0, Some(1), ADMIN, Some(Archived), true);
            Reachable(b) && Quiet(b) && Accepted(b, r) && !Quiet(Step(b, r).0)
  {
    OneBusyTask();
    var b := TwoProjects(Active, Active, [TaskOf(0, InProgress)]);
    NothingBusy(b.tasks, 1);
    var c := Step(b, UpdateProject(0, Some(1), ADMIN, Some(Archived), true)).0;
    assert c.tasks[0] == TaskOf(0, InProgress) && !TaskFits(c, c.tasks[0]);
  }

  /** With an active project named, an archived one is reopened. */
  lemma NamingAnotherReopens()
    ensures var b := TwoProjects(Archived, Active, []);
            var r := UpdateProject(0, Some(1), ADMIN, Some(Active), true);
            Reachable(b) && ArchivedIn(b, 0) && Accepted(b, r) && !ArchivedIn(Step(b, r).0, 0)
  {
    TwoActive();
    NothingBusy([], 0);
    Next(TwoProjects(Active, Active, []), UpdateProject(0, Some(0), ADMIN, Some(Archived), true),
         TwoProjects(Archived, Active, []));
  }

  /** With another task named, a finished task goes back into progress. */
  lemma NamingAnotherDemotes()
    ensures var b := TwoProjects(Active, Active, [TaskOf(0, Done), TaskOf(0, Todo)]);
            var r := UpdateTask(0, Some(1), ADMIN, Some(InProgress), None, true);
            Reachable(b) && Accepted(b, r) && Rank(Step(b, r).0.tasks[0].status) < Rank(b.tasks[0].status)
  {
    OneBusyTask();
    var done := TwoProjects(Active, Active, [TaskOf(0, Done)]);
    Next(TwoProjects(Active, Active, [TaskOf(0, InProgress)]), UpdateTask(0, Some(0), ADMIN, Some(Done), None, true),
         done);
    assert [TaskOf(0, Done)] + [TaskOf(0, Todo)] == [TaskOf(0, Done), TaskOf(0, Todo)];
    Next(done, CreateTask(ADMIN, Some(0), Some(0), None, true, true),
         TwoProjects(Active, Active, [TaskOf(0, Done), TaskOf(0, Todo)]));
  }
}
