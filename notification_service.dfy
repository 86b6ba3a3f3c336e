/** The notification service: the ownership guard in front of the read-state
    updates, and the builders of the six kinds of notification. */
module NotificationServices {
  import opened Common
  import opened NotificationRepositories

  /** What a `notify*` helper hands to `createNotification`. */
  datatype Draft = Draft(kind: string, title: string, message: string, data: map<string, DataValue>)

  /** The notification kinds the client knows (its `NotificationType`). */
  const CLIENT_KINDS: set<string> :=
    {"task_assigned", "task_comment", "task_status_changed", "mention", "project_invite", "task_due_soon"}

  const ASSIGNED_PREFIX: string := "You have been assigned to task: "
  const COMMENT_PREFIX: string := "New comment on task: "
  const MENTION_PREFIX: string := "You were mentioned in a comment on task: "
  const INVITE_PREFIX: string := "You have been added to project: "

  /** `notifyTaskAssigned`. */
  function TaskAssigned(taskId: int, taskTitle: string, assignedBy: int): (d: Draft)
    ensures d.kind == "task_assigned" && d.title == "Task Assigned"
    ensures d.message == ASSIGNED_PREFIX + taskTitle
    ensures d.data == map["task_id" := IntValue(taskId), "assigned_by" := IntValue(assignedBy)]
  {
    Draft("task_assigned", "Task Assigned", ASSIGNED_PREFIX + taskTitle,
          map["task_id" := IntValue(taskId), "assigned_by" := IntValue(assignedBy)])
  }

  /** `notifyTaskComment`. */
  function TaskComment(taskId: int, taskTitle: string, commentBy: int): (d: Draft)
    ensures d.kind == "task_comment" && d.title == "New Comment"
    ensures d.message == COMMENT_PREFIX + taskTitle
    ensures d.data == map["task_id" := IntValue(taskId), "comment_by" := IntValue(commentBy)]
  {
    Draft("task_comment", "New Comment", COMMENT_PREFIX + taskTitle,
          map["task_id" := IntValue(taskId), "comment_by" := IntValue(commentBy)])
  }

  /** `notifyTaskStatusChanged`. */
  function TaskStatusChanged(taskId: int, taskTitle: string, newStatus: string): (d: Draft)
    ensures d.kind == "task_status_changed" && d.title == "Task Status Updated"
    ensures d.message == "Task '" + taskTitle + "' status changed to: " + newStatus
    ensures d.data == map["task_id" := IntValue(taskId), "new_status" := StringValue(newStatus)]
  {
    Draft("task_status_changed", "Task Status Updated", "Task '" + taskTitle + "' status changed to: " + newStatus,
          map["task_id" := IntValue(taskId), "new_status" := StringValue(newStatus)])
  }

  /** `notifyMention`. */
  function Mention(taskId: int, taskTitle: string, mentionedBy: int): (d: Draft)
    ensures d.kind == "mention" && d.title == "You were mentioned"
    ensures d.message == MENTION_PREFIX + taskTitle
    ensures d.data == map["task_id" := IntValue(taskId), "mentioned_by" := IntValue(mentionedBy)]
  {
    Draft("mention", "You were mentioned", MENTION_PREFIX + taskTitle,
          map["task_id" := IntValue(taskId), "mentioned_by" := IntValue(mentionedBy)])
  }

  /** `notifyProjectInvite`. */
  function ProjectInvite(projectId: int, projectTitle: string, invitedBy: int): (d: Draft)
    ensures d.kind == "project_invite" && d.title == "Project Invitation"
    ensures d.message == INVITE_PREFIX + projectTitle
    ensures d.data == map["project_id" := IntValue(projectId), "invited_by" := IntValue(invitedBy)]
  {
    Draft("project_invite", "Project Invitation", INVITE_PREFIX + projectTitle,
          map["project_id" := IntValue(projectId), "invited_by" := IntValue(invitedBy)])
  }

  /** `notifyTaskDueSoon`. */
  function TaskDueSoon(taskId: int, taskTitle: string, dueDate: string): (d: Draft)
    ensures d.kind == "task_due_soon" && d.title == "Task Due Soon"
    ensures d.message == "Task '" + taskTitle + "' is due on " + dueDate
    ensures d.data == map["task_id" := IntValue(taskId), "due_date" := StringValue(dueDate)]
  {
    Draft("task_due_soon", "Task Due Soon", "Task '" + taskTitle + "' is due on " + dueDate,
          map["task_id" := IntValue(taskId), "due_date" := StringValue(dueDate)])
  }

  /** Each prefixed message gives its title back: the text after the fixed prefix
      is exactly the task or project title. */
  lemma PrefixedMessagesRecoverTitle(id: int, title: string, actor: int)
    ensures TaskAssigned(id, title, actor).message[|ASSIGNED_PREFIX|..] == title
    ensures TaskComment(id, title, actor).message[|COMMENT_PREFIX|..] == title
    ensures Mention(id, title, actor).message[|MENTION_PREFIX|..] == title
    ensures ProjectInvite(id, title, actor).message[|INVITE_PREFIX|..] == title
  {
  }

  /** The quoted messages carry the title right after the opening "Task '" and end
      with the new status or the due date. */
  lemma QuotedMessagesRecoverParts(id: int, title: string, status: string, date: string)
    ensures var m := TaskStatusChanged(id, title, status).message;
      && m[..6] == "Task '" && m[6..6 + |title|] == title
      && m[|m| - |status|..] == status
    ensures var m := TaskDueSoon(id, title, date).message;
      && m[..6] == "Task '" && m[6..6 + |title|] == title
      && m[|m| - |date|..] == date
  {
  }

  /** The six builders produce six different kinds, and together exactly the kinds
      the client knows. */
  lemma KindsAreDistinctAndKnown(id: int, title: string, actor: int, text: string)
    ensures |{TaskAssigned(id, title, actor).kind, TaskComment(id, title, actor).kind,
              TaskStatusChanged(id, title, text).kind, Mention(id, title, actor).kind,
              ProjectInvite(id, title, actor).kind, TaskDueSoon(id, title, text).kind}| == 6
    ensures {TaskAssigned(id, title, actor).kind, TaskComment(id, title, actor).kind,
             TaskStatusChanged(id, title, text).kind, Mention(id, title, actor).kind,
             ProjectInvite(id, title, actor).kind, TaskDueSoon(id, title, text).kind} == CLIENT_KINDS
  {
  }

  class NotificationService {
    const notificationRepository: NotificationRepository

    constructor (notificationRepository: NotificationRepository)
      ensures this.notificationRepository == notificationRepository
    {
      this.notificationRepository := notificationRepository;
    }

    /** `markAsRead`: a notification the user does not own is not found and nothing
        changes; otherwise it is stamped read and returned. */
    method MarkAsRead(userId: int, notificationId: int, now: string) returns (r: Outcome<Notification>)
      requires notificationRepository.Valid()
      modifies notificationRepository`rows
      ensures notificationRepository.Valid()
      ensures r.Failure? <==> old(notificationRepository.FindByUser(userId, notificationId)).None?
      ensures r.Failure? ==> r == Failure("Notification not found", NotFound)
                             && notificationRepository.rows == old(notificationRepository.rows)
      ensures r.Success? ==> r.value == old(notificationRepository.rows)[notificationId].(readAt := Some(now))
                             && notificationRepository.rows == old(notificationRepository.rows)[notificationId := r.value]
      ensures r.Success? && old(notificationRepository.rows)[notificationId].readAt.None? ==>
        notificationRepository.GetUnreadCount(userId) + 1 == old(notificationRepository.GetUnreadCount(userId))
    {
      var notification := notificationRepository.FindByUser(userId, notificationId);
      if notification.None? {
        return Failure("Notification not found", NotFound);
      }
      ghost var before := notificationRepository.UnreadOf(userId);
      var ok := notificationRepository.MarkAsRead(notificationId, now);
      assert notificationRepository.UnreadOf(userId) == before - {notificationId};
      r := Success(notificationRepository.rows[notificationId]);
    }

    /** `markAsUnread`: the same guard; otherwise `read_at` is cleared. */
    method MarkAsUnread(userId: int, notificationId: int) returns (r: Outcome<Notification>)
      requires notificationRepository.Valid()
      modifies notificationRepository`rows
      ensures notificationRepository.Valid()
      ensures r.Failure? <==> old(notificationRepository.FindByUser(userId, notificationId)).None?
      ensures r.Failure? ==> r == Failure("Notification not found", NotFound)
                             && notificationRepository.rows == old(notificationRepository.rows)
      ensures r.Success? ==> r.value == old(notificationRepository.rows)[notificationId].(readAt := None)
                             && notificationRepository.rows == old(notificationRepository.rows)[notificationId := r.value]
      ensures r.Success? ==> notificationId in notificationRepository.UnreadOf(userId)
    {
      var notification := notificationRepository.FindByUser(userId, notificationId);
      if notification.None? {
        return Failure("Notification not found", NotFound);
      }
      var ok := notificationRepository.MarkAsUnread(notificationId);
      r := Success(notificationRepository.rows[notificationId]);
    }

    /** A `notify*` helper: the draft stored for the user, unread. */
    method Notify(userId: int, draft: Draft) returns (n: Notification)
      requires notificationRepository.Valid()
      modifies notificationRepository
      ensures notificationRepository.Valid()
      ensures n.userId == userId && n.readAt.None?
      ensures n.kind == draft.kind && n.title == draft.title && n.message == draft.message && n.data == draft.data
      ensures n.id !in old(notificationRepository.rows)
      ensures notificationRepository.rows == old(notificationRepository.rows)[n.id := n]
      ensures notificationRepository.UnreadOf(userId) == old(notificationRepository.UnreadOf(userId)) + {n.id}
    {
      n := notificationRepository.CreateNotification(userId, draft.kind, draft.title, draft.message, draft.data);
    }
  }
}
