/** The task service: task visibility, task creation defaults, the guarded
    dependency updates with their cycle check, and comment authorization. */
module TaskServices {
  import opened Common
  import opened TaskGraph
  import opened TaskRepositories
  import opened ProjectRepositories

  /** The fields a create request may carry; a missing or null field is `None`. */
  datatype TaskInput = TaskInput(
    title: string,
    description: Option<string>,
    assigneeId: Option<int>,
    priority: Option<string>,
    status: Option<string>,
    dueDate: Option<string>,
    dueDateTimezone: Option<string>,
    position: Option<int>)

  /** The row `createTask` inserts: the request's fields, the caller as creator and
      updater, and the defaults for what the request leaves out (the id is
      assigned by the store). */
  function NewTaskRow(projectId: int, userId: int, data: TaskInput, maxPosition: int): (t: Task)
    ensures t.projectId == projectId && t.createdBy == userId && t.updatedBy == userId
    ensures t.title == data.title && t.description == data.description
    ensures t.assigneeId == data.assigneeId && t.dueDate == data.dueDate
    ensures t.priority == (if data.priority.Some? then data.priority.value else "medium")
    ensures t.status == (if data.status.Some? then data.status.value else "todo")
    ensures t.dueDateTimezone == (if data.dueDateTimezone.Some? then data.dueDateTimezone.value else "UTC")
    ensures data.position.Some? ==> t.position == data.position.value
    ensures data.position.None? ==> t.position == maxPosition + 1
  {
    Task(0, projectId, userId, userId, data.title, data.description, data.assigneeId,
         data.priority.GetOr("medium"), data.status.GetOr("todo"), data.dueDate,
         data.dueDateTimezone.GetOr("UTC"), data.position.GetOr(maxPosition + 1))
  }

  /** The private-project guard of `getTasks`/`getTask`: only a project whose
      visibility is exactly 'private' is closed, and then only to a caller who is
      neither admin nor project manager nor a member. */
  predicate PassesVisibilityGuard(project: Project, role: string, isMember: bool) {
    !(project.visibility == "private" && !IsManagerRole(role) && !isMember)
  }

  /** `canManageTask`: the admin and project-manager roles. */
  function CanManageTask(role: string): (r: bool)
    ensures r <==> role in {ADMIN, PROJECT_MANAGER}
  {
    IsManagerRole(role)
  }

  class TaskService {
    const taskRepository: TaskRepository
    const projectRepository: ProjectRepository

    constructor (taskRepository: TaskRepository, projectRepository: ProjectRepository)
      ensures this.taskRepository == taskRepository && this.projectRepository == projectRepository
    {
      this.taskRepository := taskRepository;
      this.projectRepository := projectRepository;
    }

    ghost predicate Valid()
      reads taskRepository, projectRepository
    {
      taskRepository.Valid() && projectRepository.Valid()
    }

    /** The live tasks and the pivot rows: the graph the cycle check searches. */
    ghost function Live(): set<int>
      reads taskRepository
    {
      taskRepository.tasks.Keys
    }

    ghost function Graph(): Edges
      reads taskRepository
    {
      taskRepository.edges
    }

    /** Whether the caller gets past the visibility guard for a project of the organization. */
    predicate MaySee(organizationId: int, projectId: int, userId: int, role: string)
      reads projectRepository
    {
      var project := projectRepository.FindByOrganization(organizationId, projectId);
      project.Some? && PassesVisibilityGuard(project.value, role, projectRepository.IsMember(projectId, userId))
    }

    /** `getTasks` without its filters and pagination: the ids of the project's live
        tasks, or nothing when the project is not in the organization or is
        private to the caller. */
    function GetTasks(organizationId: int, projectId: int, userId: int, role: string): (r: Option<set<int>>)
      reads projectRepository, taskRepository
      ensures r.None? <==> projectRepository.FindByOrganization(organizationId, projectId).None?
                           || (projectRepository.projects[projectId].visibility == "private"
                               && !IsManagerRole(role) && !projectRepository.IsMember(projectId, userId))
      ensures r.Some? ==> forall id :: id in r.value <==> id in taskRepository.tasks
                                                          && taskRepository.tasks[id].projectId == projectId
    {
      if MaySee(organizationId, projectId, userId, role) then Some(taskRepository.ByProject(projectId)) else None
    }

    /** `getTask` as written: after the project guard it loads the task by id alone
        (`findWithDetails`), so a task of any other project is returned as well. */
    function GetTask(organizationId: int, projectId: int, userId: int, role: string, taskId: int): (r: Option<Task>)
      reads projectRepository, taskRepository
      ensures !MaySee(organizationId, projectId, userId, role) ==> r.None?
      ensures MaySee(organizationId, projectId, userId, role) ==> r == taskRepository.Find(taskId)
    {
      if MaySee(organizationId, projectId, userId, role) then taskRepository.Find(taskId) else None
    }

    /** `getTask` as evidently intended: the same guard, then only a task of the
        requested project. */
    function GetTaskInProject(organizationId: int, projectId: int, userId: int, role: string, taskId: int)
      : (r: Option<Task>)
      reads projectRepository, taskRepository
      ensures r.Some? ==> MaySee(organizationId, projectId, userId, role)
      ensures r.Some? ==> taskId in taskRepository.tasks && r.value == taskRepository.tasks[taskId]
                          && r.value.projectId == projectId
      ensures (MaySee(organizationId, projectId, userId, role) && taskId in taskRepository.tasks
               && taskRepository.tasks[taskId].projectId == projectId) ==> r.Some?
    {
      if MaySee(organizationId, projectId, userId, role) then taskRepository.FindByProject(projectId, taskId) else None
    }

    /** `createTask`: nothing for a project outside the organization; otherwise one
        new task in that project, filled with the defaults, whose position without
        an explicit one is the highest position in the project plus one. */
    method CreateTask(organizationId: int, projectId: int, userId: int, data: TaskInput) returns (r: Option<Task>)
      requires Valid()
      modifies taskRepository`tasks, taskRepository`nextId
      ensures Valid()
      ensures r.Some? <==> projectRepository.FindByOrganization(organizationId, projectId).Some?
      ensures r.None? ==> taskRepository.tasks == old(taskRepository.tasks)
      ensures r.Some? ==> r.value.id !in old(taskRepository.tasks)
                          && taskRepository.tasks == old(taskRepository.tasks)[r.value.id := r.value]
      ensures r.Some? ==> r.value == NewTaskRow(projectId, userId, data, 0).(id := r.value.id, position := r.value.position)
      ensures r.Some? && data.position.Some? ==> r.value.position == data.position.value
      ensures r.Some? && data.position.None? ==>
        forall id :: id in old(taskRepository.tasks) && old(taskRepository.tasks)[id].projectId == projectId
          ==> old(taskRepository.tasks)[id].position < r.value.position
      ensures r.Some? && data.position.None? && old(taskRepository.ByProject(projectId)) == {} ==>
        r.value.position == 1
      ensures r.Some? && data.position.None? && old(taskRepository.ByProject(projectId)) != {} ==>
        exists id :: id in old(taskRepository.tasks) && old(taskRepository.tasks)[id].projectId == projectId
          && r.value.position == old(taskRepository.tasks)[id].position + 1
    {
      var project := projectRepository.FindByOrganization(organizationId, projectId);
      if project.None? {
        return None;
      }
      var maxPosition := taskRepository.GetMaxPosition(projectId);
      var created := taskRepository.Create(NewTaskRow(projectId, userId, data, maxPosition));
      r := Some(created);
    }

    /** The dependencies of every visited task are visited too, except for the tasks
        still being explored further up the search (`stack`). */
    ghost predicate ClosedOutside(visited: set<int>, stack: set<int>)
      reads taskRepository
    {
      forall v :: v in visited && v !in stack ==> taskRepository.GetDependencies(v) <= visited
    }

    /** `hasDependencyPath`: depth-first search from `from` for `to`, sharing the
        `visited` list between the branches (PHP passes it by reference, so the
        updated list is returned). A hit proves a walk; a miss leaves `to` outside
        a visited set that is closed under dependencies apart from the callers'
        tasks. The search ends because every call either stops or visits a live
        task that was not visited before. */
    method HasDependencyPath(from: int, to: int, visited: set<int>, ghost stack: set<int>)
      returns (found: bool, visitedOut: set<int>)
      requires to !in visited && stack <= visited
      requires ClosedOutside(visited, stack)
      ensures visited <= visitedOut
      ensures found ==> Reachable(Live(), Graph(), from, to)
      ensures !found ==> from in visitedOut && to !in visitedOut && ClosedOutside(visitedOut, stack)
      decreases taskRepository.tasks.Keys - visited
    {
      if from == to {
        ReachableRefl(Live(), Graph(), from);
        return true, visited;
      }
      if from in visited {
        return false, visited;
      }
      visitedOut := visited + {from};
      var dependencies := taskRepository.GetDependencies(from);
      var pending := dependencies;
      while pending != {}
        invariant pending <= dependencies
        invariant visited + {from} <= visitedOut
        invariant to !in visitedOut
        invariant ClosedOutside(visitedOut, stack + {from})
        invariant dependencies - pending <= visitedOut
        decreases pending
      {
        EmptyOrInhabited(pending);
        var next :| next in pending;
        assert from in taskRepository.tasks;
        assert taskRepository.tasks.Keys - visitedOut < taskRepository.tasks.Keys - visited;
        var hit, visitedNext := HasDependencyPath(next, to, visitedOut, stack + {from});
        if hit {
          ReachableStep(Live(), Graph(), from, next, to);
          return true, visitedNext;
        }
        visitedOut := visitedNext;
        pending := pending - {next};
      }
      found := false;
    }

    /** `wouldCreateCircularDependency(t, d)`: true exactly when t is already
        reachable from d, so that the edge t -> d would close a cycle. */
    method WouldCreateCircularDependency(taskId: int, dependsOnTaskId: int) returns (r: bool)
      ensures r <==> Reachable(Live(), Graph(), dependsOnTaskId, taskId)
    {
      var visited;
      r, visited := HasDependencyPath(dependsOnTaskId, taskId, {}, {});
      if !r {
        assert Closed(Live(), Graph(), visited);
        ClosedContainsReachable(Live(), Graph(), visited, dependsOnTaskId, taskId);
      }
    }

    /** `addDependency`: the guards in their order, then the edge. A failure leaves
        the rows as they were; a success adds exactly the edge taskId ->
        dependsOnTaskId, and an acyclic graph stays acyclic. */
    method AddDependency(organizationId: int, projectId: int, userId: int, taskId: int, dependsOnTaskId: int)
      returns (r: Outcome<Task>)
      requires Valid()
      modifies taskRepository`edges
      ensures Valid()
      ensures projectRepository.FindByOrganization(organizationId, projectId).None? ==>
        r == Failure("Project not found", NotFound)
      ensures projectRepository.FindByOrganization(organizationId, projectId).Some?
              && (taskRepository.FindByProject(projectId, taskId).None?
                  || taskRepository.FindByProject(projectId, dependsOnTaskId).None?) ==>
        r == Failure("Task not found", NotFound)
      ensures projectRepository.FindByOrganization(organizationId, projectId).Some?
              && taskRepository.FindByProject(projectId, taskId).Some?
              && taskRepository.FindByProject(projectId, dependsOnTaskId).Some? ==>
        && (taskId == dependsOnTaskId ==>
              r == Failure("A task cannot depend on itself", InvalidDependency))
        && (taskId != dependsOnTaskId && dependsOnTaskId in old(taskRepository.GetDependencies(taskId)) ==>
              r == Failure("Dependency already exists", AlreadyExists))
        && (taskId != dependsOnTaskId && dependsOnTaskId !in old(taskRepository.GetDependencies(taskId))
            && old(Reachable(Live(), Graph(), dependsOnTaskId, taskId)) ==>
              r == Failure("This would create a circular dependency", CircularDependency))
        && (taskId != dependsOnTaskId && dependsOnTaskId !in old(taskRepository.GetDependencies(taskId))
            && !old(Reachable(Live(), Graph(), dependsOnTaskId, taskId)) ==>
              r == Success(taskRepository.tasks[taskId]))
      ensures r.Failure? ==> taskRepository.edges == old(taskRepository.edges)
      ensures r.Success? ==> taskRepository.edges == Attach(old(taskRepository.edges), taskId, dependsOnTaskId)
      ensures old(Acyclic(Live(), Graph())) ==> Acyclic(Live(), Graph())
    {
      var project := projectRepository.FindByOrganization(organizationId, projectId);
      if project.None? {
        return Failure("Project not found", NotFound);
      }
      var task := taskRepository.FindByProject(projectId, taskId);
      var dependsOnTask := taskRepository.FindByProject(projectId, dependsOnTaskId);
      if task.None? || dependsOnTask.None? {
        return Failure("Task not found", NotFound);
      }
      if taskId == dependsOnTaskId {
        return Failure("A task cannot depend on itself", InvalidDependency);
      }
      var existingDependencies := taskRepository.GetDependencies(taskId);
      if dependsOnTaskId in existingDependencies {
        return Failure("Dependency already exists", AlreadyExists);
      }
      var circular := WouldCreateCircularDependency(taskId, dependsOnTaskId);
      if circular {
        return Failure("This would create a circular dependency", CircularDependency);
      }
      ghost var live, edges := Live(), Graph();
      var added := taskRepository.AddDependency(taskId, dependsOnTaskId);
      if Acyclic(live, edges) {
        AttachPreservesAcyclic(live, edges, taskId, dependsOnTaskId);
      }
      r := Success(task.value);
    }

    /** `removeDependency`: fails only for a missing project or task; otherwise the
        edge is absent afterwards, whether or not it was there. */
    method RemoveDependency(organizationId: int, projectId: int, userId: int, taskId: int, dependsOnTaskId: int)
      returns (r: Outcome<Task>)
      requires Valid()
      modifies taskRepository`edges
      ensures Valid()
      ensures projectRepository.FindByOrganization(organizationId, projectId).None? ==>
        r == Failure("Project not found", NotFound)
      ensures projectRepository.FindByOrganization(organizationId, projectId).Some?
              && taskRepository.FindByProject(projectId, taskId).None? ==>
        r == Failure("Task not found", NotFound)
      ensures projectRepository.FindByOrganization(organizationId, projectId).Some?
              && taskRepository.FindByProject(projectId, taskId).Some? ==>
        r == Success(taskRepository.tasks[taskId])
      ensures r.Failure? ==> taskRepository.edges == old(taskRepository.edges)
      ensures r.Success? ==> taskRepository.edges == Detach(old(taskRepository.edges), taskId, dependsOnTaskId)
      ensures r.Success? ==> dependsOnTaskId !in taskRepository.GetDependencies(taskId)
      ensures old(Acyclic(Live(), Graph())) ==> Acyclic(Live(), Graph())
    {
      var project := projectRepository.FindByOrganization(organizationId, projectId);
      if project.None? {
        return Failure("Project not found", NotFound);
      }
      var task := taskRepository.FindByProject(projectId, taskId);
      if task.None? {
        return Failure("Task not found", NotFound);
      }
      ghost var live, edges := Live(), Graph();
      var removed := taskRepository.RemoveDependency(taskId, dependsOnTaskId);
      if Acyclic(live, edges) {
        DetachPreservesAcyclic(live, edges, taskId, dependsOnTaskId);
      }
      r := Success(task.value);
    }

    /** `updateComment`: project, task and comment (of that task) must exist, and
        only the author may edit; then content and mentions are replaced. */
    method UpdateComment(organizationId: int, projectId: int, userId: int, taskId: int, commentId: int,
                         content: string, mentions: Option<seq<int>>)
      returns (r: Outcome<Comment>)
      requires Valid()
      modifies taskRepository`comments
      ensures Valid()
      ensures projectRepository.FindByOrganization(organizationId, projectId).None? ==>
        r == Failure("Project not found", NotFound)
      ensures projectRepository.FindByOrganization(organizationId, projectId).Some?
              && taskRepository.FindByProject(projectId, taskId).None? ==>
        r == Failure("Task not found", NotFound)
      ensures projectRepository.FindByOrganization(organizationId, projectId).Some?
              && taskRepository.FindByProject(projectId, taskId).Some? ==>
        && (commentId !in old(taskRepository.comments) || old(taskRepository.comments)[commentId].taskId != taskId ==>
              r == Failure("Comment not found", NotFound))
        && (commentId in old(taskRepository.comments) && old(taskRepository.comments)[commentId].taskId == taskId
            && old(taskRepository.comments)[commentId].userId != userId ==>
              r == Failure("You can only edit your own comments", Forbidden))
        && (commentId in old(taskRepository.comments) && old(taskRepository.comments)[commentId].taskId == taskId
            && old(taskRepository.comments)[commentId].userId == userId ==>
              r == Success(old(taskRepository.comments)[commentId].(content := content, mentions := mentions)))
      ensures r.Failure? ==> taskRepository.comments == old(taskRepository.comments)
      ensures r.Success? ==> taskRepository.comments == old(taskRepository.comments)[commentId := r.value]
    {
      var project := projectRepository.FindByOrganization(organizationId, projectId);
      if project.None? {
        return Failure("Project not found", NotFound);
      }
      var task := taskRepository.FindByProject(projectId, taskId);
      if task.None? {
        return Failure("Task not found", NotFound);
      }
      var comment := taskRepository.FindComment(commentId);
      if comment.None? || comment.value.taskId != taskId {
        return Failure("Comment not found", NotFound);
      }
      if comment.value.userId != userId {
        return Failure("You can only edit your own comments", Forbidden);
      }
      var updated := taskRepository.UpdateComment(commentId, content, mentions);
      r := Success(updated.value);
    }

    /** `deleteComment`: as `updateComment`, except that admins and project managers
        may delete the comments of others. */
    method DeleteComment(organizationId: int, projectId: int, userId: int, role: string, taskId: int, commentId: int)
      returns (r: Outcome<()>)
      requires Valid()
      modifies taskRepository`comments
      ensures Valid()
      ensures projectRepository.FindByOrganization(organizationId, projectId).None? ==>
        r == Failure("Project not found", NotFound)
      ensures projectRepository.FindByOrganization(organizationId, projectId).Some?
              && taskRepository.FindByProject(projectId, taskId).None? ==>
        r == Failure("Task not found", NotFound)
      ensures projectRepository.FindByOrganization(organizationId, projectId).Some?
              && taskRepository.FindByProject(projectId, taskId).Some? ==>
        && (commentId !in old(taskRepository.comments) || old(taskRepository.comments)[commentId].taskId != taskId ==>
              r == Failure("Comment not found", NotFound))
        && (commentId in old(taskRepository.comments) && old(taskRepository.comments)[commentId].taskId == taskId
            && old(taskRepository.comments)[commentId].userId != userId && !IsManagerRole(role) ==>
              r == Failure("You can only delete your own comments", Forbidden))
        && (commentId in old(taskRepository.comments) && old(taskRepository.comments)[commentId].taskId == taskId
            && (old(taskRepository.comments)[commentId].userId == userId || IsManagerRole(role)) ==>
              r == Success(()))
      ensures r.Failure? ==> taskRepository.comments == old(taskRepository.comments)
      ensures r.Success? ==> taskRepository.comments == old(taskRepository.comments) - {commentId}
    {
      var project := projectRepository.FindByOrganization(organizationId, projectId);
      if project.None? {
        return Failure("Project not found", NotFound);
      }
      var task := taskRepository.FindByProject(projectId, taskId);
      if task.None? {
        return Failure("Task not found", NotFound);
      }
      var comment := taskRepository.FindComment(commentId);
      if comment.None? || comment.value.taskId != taskId {
        return Failure("Comment not found", NotFound);
      }
      if comment.value.userId != userId && !IsManagerRole(role) {
        return Failure("You can only delete your own comments", Forbidden);
      }
      var deleted := taskRepository.DeleteComment(commentId);
      r := Success(());
    }
  }

  /** The discrepancy in `getTask`: once the caller may see the requested project,
      a task of a different project is handed out, where the corrected lookup
      gives nothing. */
  lemma GetTaskReturnsTaskOfOtherProject(s: TaskService, organizationId: int, projectId: int, userId: int,
                                         role: string, taskId: int)
    requires s.MaySee(organizationId, projectId, userId, role)
    requires taskId in s.taskRepository.tasks && s.taskRepository.tasks[taskId].projectId != projectId
    ensures s.GetTask(organizationId, projectId, userId, role, taskId) == Some(s.taskRepository.tasks[taskId])
    ensures s.GetTaskInProject(organizationId, projectId, userId, role, taskId).None?
  {
  }

  /** Where the task does belong to the requested project, the two lookups agree. */
  lemma GetTaskAgreesWithinProject(s: TaskService, organizationId: int, projectId: int, userId: int,
                                   role: string, taskId: int)
    requires taskId !in s.taskRepository.tasks || s.taskRepository.tasks[taskId].projectId == projectId
    ensures s.GetTask(organizationId, projectId, userId, role, taskId)
            == s.GetTaskInProject(organizationId, projectId, userId, role, taskId)
  {
  }
}
