/** The client-side task cache (`useTasksStore`): the loaded task list, the
    user's own tasks, the open task and its comments. Only the state updates of
    the successful branches are modelled; the server's answer is a parameter. */
module TasksStores {
  import opened Common

  /** The fields of a client task the store looks at. */
  datatype ClientTask = ClientTask(
    id: int,
    projectId: int,
    title: string,
    status: string,
    assigneeId: Option<int>,
    position: int)

  datatype ClientComment = ClientComment(id: int, taskId: int, content: string, mentions: Option<seq<int>>)

  /** The columns of the board, in the order `tasksByStatus` declares them. */
  const BOARD_STATUSES: set<string> := {"backlog", "todo", "in_progress", "review", "done", "blocked"}

  function TaskHasId(id: int): ClientTask -> bool {
    (t: ClientTask) => t.id == id
  }

  function TaskLacksId(id: int): ClientTask -> bool {
    (t: ClientTask) => t.id != id
  }

  function HasStatus(status: string): ClientTask -> bool {
    (t: ClientTask) => t.status == status
  }

  function CommentLacksId(id: int): ClientComment -> bool {
    (c: ClientComment) => c.id != id
  }

  class TasksStore {
    var tasks: seq<ClientTask>
    var myTasks: seq<ClientTask>
    var currentTask: Option<ClientTask>
    var comments: seq<ClientComment>

    constructor ()
      ensures tasks == [] && myTasks == [] && currentTask.None? && comments == []
    {
      tasks, myTasks, currentTask, comments := [], [], None, [];
    }

    /** `tasksByStatus`: one column per board status, each holding exactly the
        tasks with that status in list order; a task whose status is not a column
        lands in none. */
    method TasksByStatus() returns (grouped: map<string, seq<ClientTask>>)
      ensures grouped.Keys == BOARD_STATUSES
      ensures forall s :: s in grouped ==> grouped[s] == Filter(tasks, HasStatus(s))
    {
      grouped := map["backlog" := [], "todo" := [], "in_progress" := [], "review" := [], "done" := [], "blocked" := []];
      var i := 0;
      while i < |tasks|
        invariant 0 <= i <= |tasks|
        invariant grouped.Keys == BOARD_STATUSES
        invariant forall s :: s in grouped ==> grouped[s] == Filter(tasks[..i], HasStatus(s))
      {
        var task := tasks[i];
        ghost var before := grouped;
        if task.status in grouped {
          grouped := grouped[task.status := grouped[task.status] + [task]];
        }
        assert grouped.Keys == before.Keys;
        forall s | s in grouped
          ensures grouped[s] == Filter(tasks[..i + 1], HasStatus(s))
        {
          assert tasks[..i + 1] == tasks[..i] + [task];
          FilterAppend(tasks[..i], [task], HasStatus(s));
          assert Filter([task], HasStatus(s)) == if task.status == s then [task] else [];
        }
        i := i + 1;
      }
      assert tasks[..i] == tasks;
    }

    /** `createTask`: the new task is appended at the end. */
    method CreateTask(created: ClientTask)
      modifies this`tasks
      ensures tasks == old(tasks) + [created]
    {
      tasks := tasks + [created];
    }

    /** `updateTask`: the first entry with that id in `tasks` and in `myTasks`, and
        the open task when it is that task, become the server's copy; every other
        entry stays, and a list without the id is unchanged. */
    method UpdateTask(taskId: int, updated: ClientTask)
      modifies this`tasks, this`myTasks, this`currentTask
      ensures tasks == ReplaceFirst(old(tasks), TaskHasId(taskId), updated)
      ensures myTasks == ReplaceFirst(old(myTasks), TaskHasId(taskId), updated)
      ensures currentTask == ReplaceIfCurrent(old(currentTask), TaskHasId(taskId), updated)
    {
      var index := FindIndex(tasks, TaskHasId(taskId));
      if index != -1 {
        tasks := tasks[index := updated];
      }
      var myIndex := FindIndex(myTasks, TaskHasId(taskId));
      if myIndex != -1 {
        myTasks := myTasks[myIndex := updated];
      }
      currentTask := ReplaceIfCurrent(currentTask, TaskHasId(taskId), updated);
    }

    /** `deleteTask`: every entry with that id leaves both lists, and the open task
        is closed when it is that task. */
    method DeleteTask(taskId: int)
      modifies this`tasks, this`myTasks, this`currentTask
      ensures tasks == Filter(old(tasks), TaskLacksId(taskId))
      ensures myTasks == Filter(old(myTasks), TaskLacksId(taskId))
      ensures forall t :: t in tasks + myTasks ==> t.id != taskId
      ensures currentTask == if old(currentTask).Some? && old(currentTask).value.id == taskId then None else old(currentTask)
    {
      tasks := Filter(tasks, TaskLacksId(taskId));
      myTasks := Filter(myTasks, TaskLacksId(taskId));
      if currentTask.Some? && currentTask.value.id == taskId {
        currentTask := None;
      }
    }

    /** `addComment`: the new comment is appended. */
    method AddComment(created: ClientComment)
      modifies this`comments
      ensures comments == old(comments) + [created]
    {
      comments := comments + [created];
    }

    /** `deleteComment`: every comment with that id is dropped, the others keep
        their order. */
    method DeleteComment(commentId: int)
      modifies this`comments
      ensures comments == Filter(old(comments), CommentLacksId(commentId))
      ensures forall c :: c in comments ==> c.id != commentId
    {
      comments := Filter(comments, CommentLacksId(commentId));
    }

    /** `addDependency`: only the open task changes, and only when it is that task. */
    method AddDependency(taskId: int, updated: ClientTask)
      modifies this`currentTask
      ensures currentTask == ReplaceIfCurrent(old(currentTask), TaskHasId(taskId), updated)
    {
      currentTask := ReplaceIfCurrent(currentTask, TaskHasId(taskId), updated);
    }

    /** `removeDependency`: the same update as `addDependency`. */
    method RemoveDependency(taskId: int, updated: ClientTask)
      modifies this`currentTask
      ensures currentTask == ReplaceIfCurrent(old(currentTask), TaskHasId(taskId), updated)
    {
      currentTask := ReplaceIfCurrent(currentTask, TaskHasId(taskId), updated);
    }

    /** `setCurrentTask`. */
    method SetCurrentTask(task: Option<ClientTask>)
      modifies this`currentTask
      ensures currentTask == task
    {
      currentTask := task;
    }

    /** `clearTasks`: the project's list, the open task and its comments are
        emptied; the user's own tasks stay. */
    method ClearTasks()
      modifies this`tasks, this`currentTask, this`comments
      ensures tasks == [] && currentTask.None? && comments == []
    {
      tasks := [];
      currentTask := None;
      comments := [];
    }
  }

  /** The board columns never hold a task twice over: a task of a board status is
      in its own column and in no other, and a task of any other status is in no
      column. */
  lemma ColumnsAreDisjoint(tasks: seq<ClientTask>, s1: string, s2: string, t: ClientTask)
    requires s1 != s2
    ensures !(t in Filter(tasks, HasStatus(s1)) && t in Filter(tasks, HasStatus(s2)))
    ensures t in tasks && t.status in BOARD_STATUSES ==> t in Filter(tasks, HasStatus(t.status))
    ensures t.status !in BOARD_STATUSES ==> forall s :: s in BOARD_STATUSES ==> t !in Filter(tasks, HasStatus(s))
  {
  }

  /** Updating the same task twice with the same answer is the same as once, and
      an update for a deleted task finds nothing to replace. */
  lemma UpdateAfterUpdateOrDelete(tasks: seq<ClientTask>, taskId: int, updated: ClientTask)
    requires updated.id == taskId
    ensures ReplaceFirst(ReplaceFirst(tasks, TaskHasId(taskId), updated), TaskHasId(taskId), updated)
         == ReplaceFirst(tasks, TaskHasId(taskId), updated)
    ensures ReplaceFirst(Filter(tasks, TaskLacksId(taskId)), TaskHasId(taskId), updated)
         == Filter(tasks, TaskLacksId(taskId))
  {
    ReplaceFirstIdempotent(tasks, TaskHasId(taskId), updated);
    var kept := Filter(tasks, TaskLacksId(taskId));
    assert forall i :: 0 <= i < |kept| ==> kept[i] in kept;
  }

  /** Deleting a task keeps the other tasks in their order, and deleting twice is
      deleting once. */
  lemma DeleteKeepsOthers(tasks: seq<ClientTask>, taskId: int)
    ensures forall t :: t in tasks && t.id != taskId ==> t in Filter(tasks, TaskLacksId(taskId))
    ensures Filter(Filter(tasks, TaskLacksId(taskId)), TaskLacksId(taskId)) == Filter(tasks, TaskLacksId(taskId))
  {
    FilterIdempotent(tasks, TaskLacksId(taskId));
  }
}
