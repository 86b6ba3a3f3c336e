/** The task store: the `tasks` table (live and soft-deleted rows), the
    `task_dependencies` pivot and the `task_comments` table, with the queries and
    updates of the task repository. */
module TaskRepositories {
  import opened Common
  import opened TaskGraph

  datatype Task = Task(
    id: int,
    projectId: int,
    createdBy: int,
    updatedBy: int,
    title: string,
    description: Option<string>,
    assigneeId: Option<int>,
    priority: string,
    status: string,
    dueDate: Option<string>,
    dueDateTimezone: string,
    position: int)

  datatype Comment = Comment(
    id: int,
    taskId: int,
    userId: int,
    content: string,
    mentions: Option<seq<int>>)

  class TaskRepository {
    /** Tasks that are not soft-deleted, by id. */
    var tasks: map<int, Task>
    /** Soft-deleted tasks, by id. */
    var trashed: map<int, Task>
    /** The `task_dependencies` rows: task id to the ids it depends on. */
    var edges: Edges
    /** Comments that are not deleted, by id. */
    var comments: map<int, Comment>
    var nextId: int
    var nextCommentId: int

    ghost predicate Valid()
      reads this
    {
      && tasks.Keys !! trashed.Keys
      && (forall id :: id in tasks ==> tasks[id].id == id && id < nextId)
      && (forall id :: id in trashed ==> trashed[id].id == id && id < nextId)
      && (forall id :: id in comments ==> comments[id].id == id && id < nextCommentId)
      && (forall t :: t in edges ==> t < nextId && forall d :: d in edges[t] ==> d < nextId)
    }

    constructor ()
      ensures Valid()
      ensures tasks == map[] && trashed == map[] && edges == map[] && comments == map[]
    {
      tasks, trashed, edges, comments := map[], map[], map[], map[];
      nextId, nextCommentId := 1, 1;
    }

    /** The ids of the live tasks. */
    function Live(): set<int>
      reads this
    {
      tasks.Keys
    }

    /** `find`: a live task by id, whatever its project. */
    function Find(taskId: int): (r: Option<Task>)
      reads this
      ensures r.Some? <==> taskId in tasks
      ensures r.Some? ==> r.value == tasks[taskId]
    {
      if taskId in tasks then Some(tasks[taskId]) else None
    }

    /** `findByProject`: a live task, and only if it belongs to `projectId`. */
    function FindByProject(projectId: int, taskId: int): (r: Option<Task>)
      reads this
      ensures r.Some? <==> taskId in tasks && tasks[taskId].projectId == projectId
      ensures r.Some? ==> r.value == tasks[taskId]
    {
      if taskId in tasks && tasks[taskId].projectId == projectId then Some(tasks[taskId]) else None
    }

    /** `getByProject` without its filters: the ids of the project's live tasks. */
    function ByProject(projectId: int): (r: set<int>)
      reads this
      ensures forall id :: id in r <==> id in tasks && tasks[id].projectId == projectId
    {
      set id | id in tasks && tasks[id].projectId == projectId
    }

    /** `getDependencies`: nothing for a task that is not live; otherwise the live
        tasks its pivot rows point at, whatever their project. */
    function GetDependencies(taskId: int): (r: set<int>)
      reads this
      ensures taskId !in tasks ==> r == {}
      ensures forall d :: d in r <==> taskId in tasks && d in tasks && d in Row(edges, taskId)
    {
      Dependencies(tasks.Keys, edges, taskId)
    }

    /** `getDependents`: nothing for a task that is not live; otherwise the live
        tasks with a pivot row pointing at it. */
    function GetDependents(taskId: int): (r: set<int>)
      reads this
      ensures taskId !in tasks ==> r == {}
      ensures forall b :: b in r <==> taskId in tasks && b in tasks && taskId in Row(edges, b)
    {
      Dependents(tasks.Keys, edges, taskId)
    }

    /** `addDependency`: false and no change when the task is not live (the target
        is not looked up); otherwise the row is present afterwards, once, and every
        other row is kept. */
    method AddDependency(taskId: int, dependsOnTaskId: int) returns (ok: bool)
      modifies this`edges
      ensures ok <==> taskId in tasks
      ensures edges == if ok then Attach(old(edges), taskId, dependsOnTaskId) else old(edges)
    {
      if taskId !in tasks {
        return false;
      }
      edges := Attach(edges, taskId, dependsOnTaskId);
      ok := true;
    }

    /** `removeDependency`: false and no change when the task is not live; otherwise
        only the one row is gone. */
    method RemoveDependency(taskId: int, dependsOnTaskId: int) returns (ok: bool)
      modifies this`edges
      ensures ok <==> taskId in tasks
      ensures edges == if ok then Detach(old(edges), taskId, dependsOnTaskId) else old(edges)
    {
      if taskId !in tasks {
        return false;
      }
      edges := Detach(edges, taskId, dependsOnTaskId);
      ok := true;
    }

    /** `getMaxPosition`: the largest position among the project's live tasks, or 0
        when it has none. The query's aggregate is computed here by a scan. */
    method GetMaxPosition(projectId: int) returns (m: int)
      ensures forall id :: id in tasks && tasks[id].projectId == projectId ==> tasks[id].position <= m
      ensures ByProject(projectId) == {} ==> m == 0
      ensures ByProject(projectId) != {} ==>
        exists id :: id in tasks && tasks[id].projectId == projectId && tasks[id].position == m
    {
      var pending := tasks.Keys;
      var seen := false;
      m := 0;
      while pending != {}
        invariant pending <= tasks.Keys
        invariant seen <==> exists id :: id in tasks.Keys - pending && tasks[id].projectId == projectId
        invariant !seen ==> m == 0
        invariant seen ==>
          exists id :: id in tasks.Keys - pending && tasks[id].projectId == projectId && tasks[id].position == m
        invariant forall id :: id in tasks.Keys - pending && tasks[id].projectId == projectId ==> tasks[id].position <= m
        decreases pending
      {
        EmptyOrInhabited(pending);
        var k :| k in pending;
        if tasks[k].projectId == projectId && (!seen || tasks[k].position > m) {
          m := tasks[k].position;
          seen := true;
        }
        pending := pending - {k};
      }
      if !seen {
        assert forall id :: id in tasks ==> tasks[id].projectId != projectId;
      }
    }

    /** `create`: inserts a task under the next auto-increment id. */
    method Create(row: Task) returns (created: Task)
      requires Valid()
      modifies this`tasks, this`nextId
      ensures Valid()
      ensures created == row.(id := old(nextId))
      ensures created.id !in old(tasks) && created.id !in trashed
      ensures tasks == old(tasks)[created.id := created]
    {
      created := row.(id := nextId);
      tasks := tasks[nextId := created];
      nextId := nextId + 1;
    }

    /** `delete` (from the base repository): soft-deletes a live task; false for any
        other id. The pivot rows stay. */
    method Delete(taskId: int) returns (ok: bool)
      requires Valid()
      modifies this`tasks, this`trashed
      ensures Valid()
      ensures ok <==> taskId in old(tasks)
      ensures ok ==> tasks == old(tasks) - {taskId} && trashed == old(trashed)[taskId := old(tasks)[taskId]]
      ensures !ok ==> tasks == old(tasks) && trashed == old(trashed)
    {
      if taskId in tasks {
        trashed := trashed[taskId := tasks[taskId]];
        tasks := tasks - {taskId};
        ok := true;
      } else {
        ok := false;
      }
    }

    /** `restore`: false only for an id that is neither live nor soft-deleted; a
        live task is left as it is and reported as restored. */
    method Restore(taskId: int) returns (ok: bool)
      requires Valid()
      modifies this`tasks, this`trashed
      ensures Valid()
      ensures ok <==> taskId in old(tasks) || taskId in old(trashed)
      ensures taskId in old(trashed) ==>
        tasks == old(tasks)[taskId := old(trashed)[taskId]] && trashed == old(trashed) - {taskId}
      ensures taskId !in old(trashed) ==> tasks == old(tasks) && trashed == old(trashed)
    {
      if taskId in trashed {
        tasks := tasks[taskId := trashed[taskId]];
        trashed := trashed - {taskId};
        ok := true;
      } else {
        ok := taskId in tasks;
      }
    }

    /** `findComment`. */
    function FindComment(commentId: int): (r: Option<Comment>)
      reads this
      ensures r.Some? <==> commentId in comments
      ensures r.Some? ==> r.value == comments[commentId]
    {
      if commentId in comments then Some(comments[commentId]) else None
    }

    /** `addComment`: a new comment under the next id, with exactly the given fields. */
    method AddComment(taskId: int, userId: int, content: string, mentions: Option<seq<int>>)
      returns (created: Comment)
      requires Valid()
      modifies this`comments, this`nextCommentId
      ensures Valid()
      ensures created == Comment(old(nextCommentId), taskId, userId, content, mentions)
      ensures created.id !in old(comments)
      ensures comments == old(comments)[created.id := created]
    {
      created := Comment(nextCommentId, taskId, userId, content, mentions);
      comments := comments[nextCommentId := created];
      nextCommentId := nextCommentId + 1;
    }

    /** `updateComment`: nothing for a missing comment; otherwise content and
        mentions are replaced (mentions become null when none are given) and the
        task and author are kept. */
    method UpdateComment(commentId: int, content: string, mentions: Option<seq<int>>)
      returns (r: Option<Comment>)
      requires Valid()
      modifies this`comments
      ensures Valid()
      ensures r.Some? <==> commentId in old(comments)
      ensures r.Some? ==> r.value == old(comments)[commentId].(content := content, mentions := mentions)
                           && comments == old(comments)[commentId := r.value]
      ensures r.None? ==> comments == old(comments)
    {
      if commentId !in comments {
        return None;
      }
      var updated := comments[commentId].(content := content, mentions := mentions);
      comments := comments[commentId := updated];
      r := Some(updated);
    }

    /** `deleteComment`: false for a missing comment; otherwise that comment is gone. */
    method DeleteComment(commentId: int) returns (ok: bool)
      requires Valid()
      modifies this`comments
      ensures Valid()
      ensures ok <==> commentId in old(comments)
      ensures comments == old(comments) - {commentId}
    {
      ok := commentId in comments;
      comments := comments - {commentId};
    }
  }
}
