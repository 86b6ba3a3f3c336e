# Task-management platform: a Dafny model of its rules

This project models the core rules of a task-management platform. The backend is a Laravel application. Its client is a Vue application with Pinia stores. The model covers:

- **Task dependencies.** Tasks depend on other tasks through the `task_dependencies` pivot table. `TaskService::addDependency` runs its guards in a fixed order: the project exists, both tasks exist, no self-dependency, no duplicate direct edge, no cycle. Only then does it insert the edge. The cycle check is a recursive depth-first search, `hasDependencyPath`, with a `$visited` list passed by reference.
  - The model proves that the search terminates.
  - It proves the search answers exactly "the target is reachable from the start".
  - It proves a successful add keeps an acyclic graph acyclic.
  - Diamond-shaped dependencies are still accepted.
  - The graph is the store's view: edges whose target is a live (not soft-deleted) task, over every project.
- **Repositories** of tasks, projects and notifications. Each is a class whose fields are the tables: live rows, soft-deleted rows, pivot and membership rows, and an auto-increment counter. The queries are functions and the updates are methods.
- **Services.** These cover:
  - project access and management rules, project creation and member management;
  - task visibility, task creation defaults, and who may edit or delete comments;
  - the ownership guard on notification read state, and the six notification message builders;
  - the mock-user login of `AuthService`.
- **The JWT middleware.** `extractToken` models the PCRE pattern `/Bearer\s+(.*)$/i` exactly:
  - the leftmost case-insensitive "Bearer" followed by whitespace;
  - the whitespace run is dropped;
  - `.` stops at a line feed;
  - `$` also matches before a final line feed.

  `handle` gives its two 401 answers ('No token provided' and 'Invalid or expired token'), or sets the five request attributes and forwards.
- **The client stores** (`tasks`, `projects`, `notifications`, `auth`). Each is a class over `seq` fields. The methods are the state updates of the successful branches. The server's answer is a parameter.

Things outside the model are parameters:
- The token signer and the token validator are functions handed to `AuthService` (the validator is partial).
- The clock is a `now` string.
- The `organization_users` table is a set of pairs given to `ProjectService`.
- An HTTP answer is a method argument, such as `MeOutcome` for `fetchUser`.

The model files are:
- `common.dfy`: shared datatypes, roles, PHP and JavaScript truthiness, and sequence helpers.
- `task_graph.dfy`: paths, reachability and acyclicity.
- `task_repository.dfy`, `project_repository.dfy`, `notification_repository.dfy`.
- `task_service.dfy`, `project_service.dfy`, `notification_service.dfy`, `auth_service.dfy`.
- `jwt_authenticate.dfy`.
- `tasks_store.dfy`, `projects_store.dfy`, `notifications_store.dfy`, `auth_store.dfy`.
- `access_rules.dfy`: how the server and client permission rules relate.

## Model

| member | source | states |
|---|---|---|
| Common.ReplaceFirst | frontend/src/stores/tasks.ts:132-139 | `findIndex` then assignment at that index: the length is kept, the first matching entry becomes the new value, every other entry is unchanged, and without a match nothing changes |
| Common.ReplaceFirstIdempotent | frontend/src/stores/tasks.ts:132-139 | when the new value itself matches, replacing it a second time changes nothing |
| Common.ReplaceIfCurrent | frontend/src/stores/tasks.ts:139-141 | the open entity becomes the answer exactly when there is one and it matches; otherwise it is kept, and there is an open entity afterwards exactly when there was one before |
| Common.ReplaceIfCurrentIdempotent | frontend/src/stores/projects.ts:104-106 | when the answer itself matches, replacing the open entity a second time changes nothing |
| Common.FilterAgrees | frontend/src/stores/projects.ts:24-26 | filtering by two predicates that agree on every element gives the same list |
| Common.FilterAllOrNone | frontend/src/stores/projects.ts:24-26 | a filter that keeps every element returns the list itself, and one that keeps none returns the empty list |
| Common.FilterPartition | frontend/src/stores/notifications.ts:20-26 | filtering by a predicate and by its negation splits a list: the two multisets add up to the list's multiset, and the lengths add up to its length |
| TaskGraph.Dependencies | backend/app/Repositories/TaskRepository.php:138-146 | the dependencies of a task are its pivot targets that are live tasks, and nothing for a task that is not live |
| TaskGraph.DependentsMirrorDependencies | backend/app/Repositories/TaskRepository.php:148-156 | for live tasks, b is a dependent of a exactly when a is a dependency of b |
| TaskGraph.Attach | backend/app/Repositories/TaskRepository.php:116-125 | `syncWithoutDetaching`: the task's rows gain the one target, no duplicate arises, and the rows of every other task are unchanged |
| TaskGraph.Detach | backend/app/Repositories/TaskRepository.php:127-136 | `detach`: only that one row is gone |
| TaskGraph.AttachPreservesAcyclic | backend/app/Services/TaskService.php:242-252 | adding t -> d when t is not reachable from d keeps an acyclic graph acyclic |
| TaskGraph.AttachOnWalkBackIsCyclic | backend/app/Services/TaskService.php:247-250 | when t is reachable from d, adding t -> d creates a cycle, so the cycle guard refuses exactly the edges that close one |
| TaskGraph.DetachPreservesAcyclic | backend/app/Services/TaskService.php:279-284 | removing an edge never creates a cycle |
| TaskGraph.RemoveTaskPreservesAcyclic | backend/app/Repositories/BaseRepository.php:51-60 | soft-deleting a task hides its edges and keeps the live graph acyclic |
| TaskGraph.RestoreCanExposeCycle | backend/app/Repositories/TaskRepository.php:206-214 | restoring a soft-deleted task can bring back pivot rows that close a cycle among live tasks |
| TaskGraph.DiamondIsAccepted | backend/app/Services/TaskService.php:242-245 | with 1 -> 2 -> 4 and 1 -> 3, adding 3 -> 4 passes the duplicate check and the cycle check, and leaves the graph acyclic with two paths from 1 to 4 |
| TaskGraph.NoWalkFromSink | backend/app/Services/TaskService.php:427-448 | from a task with no dependencies no other task is reachable |
| TaskRepositories.TaskRepository.constructor | backend/app/Repositories/BaseRepository.php:34-37 | the store starts with empty tables and its invariant established |
| TaskRepositories.TaskRepository.Find | backend/app/Repositories/BaseRepository.php:24-27 | a live task by id, whatever its project |
| TaskRepositories.TaskRepository.FindByProject | backend/app/Repositories/TaskRepository.php:18-24 | a task is returned only when it is live and belongs to the given project |
| TaskRepositories.TaskRepository.ByProject | backend/app/Repositories/TaskRepository.php:26-33 | the ids of exactly the project's live tasks |
| TaskRepositories.TaskRepository.GetDependencies | backend/app/Repositories/TaskRepository.php:138-146 | empty for a task that is not live; otherwise the live pivot targets |
| TaskRepositories.TaskRepository.GetDependents | backend/app/Repositories/TaskRepository.php:148-156 | empty for a task that is not live; otherwise the live tasks with a pivot row pointing at it |
| TaskRepositories.TaskRepository.AddDependency | backend/app/Repositories/TaskRepository.php:116-125 | false and no change when the task is not live; otherwise the edge is present once and every other row is kept |
| TaskRepositories.TaskRepository.RemoveDependency | backend/app/Repositories/TaskRepository.php:127-136 | false and no change when the task is not live; otherwise only that one edge is removed |
| TaskRepositories.TaskRepository.GetMaxPosition | backend/app/Repositories/TaskRepository.php:226-231 | the largest position among the project's live tasks, reached by one of them, and 0 when the project has none |
| TaskRepositories.TaskRepository.Create | backend/app/Repositories/BaseRepository.php:34-37 | the row is stored under a fresh id, and no existing row changes |
| TaskRepositories.TaskRepository.Delete | backend/app/Repositories/BaseRepository.php:51-60 | a live task moves to the soft-deleted rows; false and no change for any other id |
| TaskRepositories.TaskRepository.Restore | backend/app/Repositories/TaskRepository.php:206-214 | false only when the id is neither live nor soft-deleted; a soft-deleted task becomes live; a live task is reported as restored and left as it is |
| TaskRepositories.TaskRepository.FindComment | backend/app/Repositories/TaskRepository.php:201-204 | the stored comment with that id, or nothing |
| TaskRepositories.TaskRepository.AddComment | backend/app/Repositories/TaskRepository.php:166-174 | one new comment under a fresh id, with exactly the given task, author, content and mentions |
| TaskRepositories.TaskRepository.UpdateComment | backend/app/Repositories/TaskRepository.php:176-189 | nothing and no change for a missing comment; otherwise content and mentions are replaced, and task and author are kept |
| TaskRepositories.TaskRepository.DeleteComment | backend/app/Repositories/TaskRepository.php:191-199 | false for a missing comment; afterwards no comment has that id |
| ProjectRepositories.SortOrder | backend/app/Repositories/ProjectRepository.php:162-169 | an ordering exists exactly when the field (default `created_at`) is whitelisted; the direction is "asc" exactly when "asc" was asked for, and "desc" otherwise |
| ProjectRepositories.ProjectRepository.constructor | backend/app/Repositories/BaseRepository.php:34-37 | no projects and no members, with the invariant (no duplicate membership rows) established |
| ProjectRepositories.ProjectRepository.FindByOrganization | backend/app/Repositories/ProjectRepository.php:18-23 | a project is returned only when it is live and belongs to the organization |
| ProjectRepositories.ProjectRepository.AccessibleProjects | backend/app/Repositories/ProjectRepository.php:41-65 | only projects of the organization; for the role 'member', exactly the public ones and those with a membership row; every other role gets all of them |
| ProjectRepositories.ProjectRepository.Create | backend/app/Repositories/BaseRepository.php:34-37 | the row is stored under a fresh id |
| ProjectRepositories.ProjectRepository.Update | backend/app/Repositories/BaseRepository.php:39-49 | a live row is replaced and returned; nothing and no change for any other id |
| ProjectRepositories.ProjectRepository.AddMember | backend/app/Repositories/ProjectRepository.php:78-90 | false and no change for an existing member; otherwise exactly one row is added; a pair never occurs twice, and the user is a member afterwards |
| ProjectRepositories.ProjectRepository.RemoveMember | backend/app/Repositories/ProjectRepository.php:92-97 | true exactly when a membership row existed; afterwards the user is no member, and every other row stays |
| ProjectRepositories.ProjectRepository.IsMember | backend/app/Repositories/ProjectRepository.php:99-104 | true exactly when a membership row for that project and user exists |
| ProjectRepositories.ProjectRepository.Restore | backend/app/Repositories/ProjectRepository.php:117-126 | true only for a soft-deleted project, which becomes live; no change otherwise |
| NotificationRepositories.NotificationRepository.constructor | backend/app/Repositories/NotificationRepository.php:114-128 | an empty table with the id invariant established |
| NotificationRepositories.NotificationRepository.GetUnreadCount | backend/app/Repositories/NotificationRepository.php:52-58 | the number of the user's notifications without `read_at` |
| NotificationRepositories.NotificationRepository.FindByUser | backend/app/Repositories/NotificationRepository.php:60-66 | the notification, only when the user owns it |
| NotificationRepositories.NotificationRepository.GetByUser | backend/app/Repositories/NotificationRepository.php:17-41 | only the user's notifications; `unread_only` keeps only unread ones, `read_only` only read ones and `type` only that kind, each filter applying only when its value is truthy in PHP; every notification passing the filters is included |
| NotificationRepositories.MatchesFilters | backend/app/Repositories/NotificationRepository.php:22-33 | the unread-only, read-only and type filters each apply only when their value is truthy in PHP's sense |
| NotificationRepositories.NotificationRepository.MarkAsRead | backend/app/Repositories/NotificationRepository.php:68-76 | false and no change for an unknown id; otherwise `read_at` is set, even when it was set already, and nothing else changes |
| NotificationRepositories.NotificationRepository.MarkAsUnread | backend/app/Repositories/NotificationRepository.php:78-86 | false and no change for an unknown id; otherwise `read_at` is cleared |
| NotificationRepositories.NotificationRepository.MarkAllAsRead | backend/app/Repositories/NotificationRepository.php:88-94 | returns how many of the user's notifications were unread; exactly those are stamped, afterwards the user has none unread, and other users' rows are untouched |
| NotificationRepositories.NotificationRepository.DeleteByUser | backend/app/Repositories/NotificationRepository.php:96-104 | deletes the notification only when the user owns it; otherwise false and no change |
| NotificationRepositories.NotificationRepository.DeleteAllRead | backend/app/Repositories/NotificationRepository.php:106-112 | removes exactly the user's read notifications and returns their number; the unread ones remain |
| NotificationRepositories.NotificationRepository.CreateNotification | backend/app/Repositories/NotificationRepository.php:114-128 | one new unread row owned by the user, with the given fields; it joins the user's unread set |
| NotificationRepositories.FiltersExclusive | backend/app/Repositories/NotificationRepository.php:22-33 | `unread_only` and `read_only` together admit nothing; the string "false" still switches a filter on, and "0" switches it off |
| NotificationRepositories.UnreadReadPartition | backend/app/Repositories/NotificationRepository.php:17-58 | the user's unread and read notifications are disjoint, and together they are what an unfiltered `getByUser` lists |
| TaskServices.NewTaskRow | backend/app/Services/TaskService.php:94-110 | the inserted row uses the caller as creator and updater; priority, status and timezone default to 'medium', 'todo' and 'UTC'; without an explicit position it is exactly the given maximum + 1 |
| TaskServices.CanManageTask | backend/app/Services/TaskService.php:415-418 | exactly the roles admin and project_manager |
| TaskServices.TaskService.constructor | backend/app/Services/TaskService.php:15-18 | the service holds the two repositories it is given |
| TaskServices.TaskService.GetTasks | backend/app/Services/TaskService.php:20-43 | nothing exactly when the project is outside the organization, or private while the caller is neither admin, nor project manager, nor member; otherwise exactly the project's live tasks |
| TaskServices.PassesVisibilityGuard | backend/app/Services/TaskService.php:34-38 | only a project whose visibility is exactly 'private' is closed, and then only to a caller who is neither admin nor project manager nor a member |
| TaskServices.TaskService.GetTask | backend/app/Services/TaskService.php:45-67 | nothing when the guard refuses; otherwise the task with that id, whatever project it belongs to |
| TaskServices.TaskService.GetTaskInProject | backend/app/Services/TaskService.php:45-67 | the same guard, then a task only when it belongs to the requested project, and then always |
| TaskServices.TaskService.CreateTask | backend/app/Services/TaskService.php:77-113 | nothing and no change outside the organization; otherwise one new task with the request's fields and the defaults; without an explicit position it is exactly the maximum position of the project's live tasks + 1, so it lies above every one of them, and it is 1 in an empty project |
| TaskServices.TaskService.HasDependencyPath | backend/app/Services/TaskService.php:427-448 | true only when the target is reachable from the start; false only when the start is visited, the target is not, and every visited task's dependencies are visited too (except those still on the search stack); `visited` only grows, and the search terminates because the unvisited live tasks decrease |
| TaskServices.TaskService.WouldCreateCircularDependency | backend/app/Services/TaskService.php:420-425 | true exactly when the task is already reachable from the task it would depend on |
| TaskServices.TaskService.AddDependency | backend/app/Services/TaskService.php:216-258 | the failures in order: NOT_FOUND for the project, then NOT_FOUND for either task, then INVALID_DEPENDENCY for a self-edge, then ALREADY_EXISTS for a direct edge, then CIRCULAR_DEPENDENCY exactly when a path leads back; a failure leaves the edges unchanged, a success adds exactly that edge, and an acyclic graph stays acyclic |
| TaskServices.TaskService.RemoveDependency | backend/app/Services/TaskService.php:260-285 | NOT_FOUND only for a missing project or task; otherwise success whether or not the edge was there, and the edge is absent afterwards |
| TaskServices.TaskService.UpdateComment | backend/app/Services/TaskService.php:339-374 | NOT_FOUND for a missing project, task or comment, and for a comment of another task; FORBIDDEN for anyone but the author; on success the content and mentions are replaced; a failure changes nothing |
| TaskServices.TaskService.DeleteComment | backend/app/Services/TaskService.php:376-413 | the same guards, except that admins and project managers may delete the comments of others; on success exactly that comment is gone |
| TaskServices.GetTaskReturnsTaskOfOtherProject | backend/app/Services/TaskService.php:66 | once the caller may see the requested project, `getTask` returns a task of another project, and the corrected lookup returns nothing |
| TaskServices.GetTaskAgreesWithinProject | backend/app/Services/TaskService.php:45-67 | for a task of the requested project, or a missing one, the written and the corrected lookup agree |
| ProjectServices.NewProjectRow | backend/app/Services/ProjectService.php:55-86 | the manager defaults to the creator, the status to 'planning' and the visibility to 'public'; the other fields are as supplied |
| ProjectServices.Merge | backend/app/Services/ProjectService.php:102-112 | every field the update supplies as non-null overwrites the stored one, and all others keep their value |
| ProjectServices.MergeEmptyPatch | backend/app/Services/ProjectService.php:102-112 | an update supplying nothing changes nothing |
| ProjectServices.MergeIdempotent | backend/app/Services/ProjectService.php:102-112 | the same update applied twice equals applying it once |
| ProjectServices.MergeCompose | backend/app/Services/ProjectService.php:102-112 | two updates in a row equal one update carrying, per field, the later supplied value |
| ProjectServices.CanManageProject | backend/app/Services/ProjectService.php:254-257 | exactly the roles admin and project_manager |
| ProjectServices.ProjectService.constructor | backend/app/Services/ProjectService.php:14-16 | the service holds the repository it is given, and the organization membership that `addMember` consults |
| ProjectServices.ProjectService.GetProject | backend/app/Services/ProjectService.php:34-53 | a project exactly when it belongs to the organization and the caller may access it |
| ProjectServices.ProjectService.CanAccessProject | backend/app/Services/ProjectService.php:238-252 | admins and project managers see every project, anyone sees a public project, and otherwise only a member sees it |
| ProjectServices.ProjectService.CreateProject | backend/app/Services/ProjectService.php:55-86 | a new project with the defaults; the creator and the manager become members, and no other membership row is added |
| ProjectServices.ProjectService.UpdateProject | backend/app/Services/ProjectService.php:88-126 | nothing and no change outside the organization; otherwise the stored project becomes its merge with the supplied fields |
| ProjectServices.ProjectService.AddMember | backend/app/Services/ProjectService.php:164-196 | the failures in order: NOT_FOUND, then INVALID_USER for a user outside the organization, then ALREADY_MEMBER; only a success adds the membership row |
| ProjectServices.ProjectService.RemoveMember | backend/app/Services/ProjectService.php:198-225 | NOT_FOUND for a missing project; CANNOT_REMOVE_MANAGER for the manager, before membership is checked; NOT_FOUND for a non-member; on success only that membership goes, so the manager stays a member |
| ProjectServices.AccessRuleCases | backend/app/Services/ProjectService.php:238-252 | admins and project managers may access any project whatever their membership; anyone may access a public project; otherwise access is exactly membership |
| ProjectServices.ListingAgreesWithAccess | backend/app/Repositories/ProjectRepository.php:41-65 | for the three known roles and the two visibilities, a project of the organization is listed exactly when `canAccessProject` allows it |
| ProjectServices.UnknownRoleListsMoreThanItMayOpen | backend/app/Repositories/ProjectRepository.php:47-64 | an unknown role string is listed a private project that `canAccessProject` refuses it |
| NotificationServices.TaskAssigned | backend/app/Services/NotificationService.php:98-110 | kind 'task_assigned', title 'Task Assigned', the fixed prefix followed by the title, and data {task_id, assigned_by} |
| NotificationServices.TaskComment | backend/app/Services/NotificationService.php:112-124 | kind 'task_comment', title 'New Comment', the prefix and the title, and data {task_id, comment_by} |
| NotificationServices.TaskStatusChanged | backend/app/Services/NotificationService.php:126-138 | kind 'task_status_changed', the quoted title and the new status, and data {task_id, new_status} |
| NotificationServices.Mention | backend/app/Services/NotificationService.php:140-152 | kind 'mention', title 'You were mentioned', the prefix and the title, and data {task_id, mentioned_by} |
| NotificationServices.ProjectInvite | backend/app/Services/NotificationService.php:154-166 | kind 'project_invite', title 'Project Invitation', the prefix and the project title, and data {project_id, invited_by} |
| NotificationServices.TaskDueSoon | backend/app/Services/NotificationService.php:168-180 | kind 'task_due_soon', the quoted title and the due date, and data {task_id, due_date} |
| NotificationServices.PrefixedMessagesRecoverTitle | backend/app/Services/NotificationService.php:98-166 | the text after each fixed prefix is exactly the task or project title |
| NotificationServices.QuotedMessagesRecoverParts | backend/app/Services/NotificationService.php:126-180 | the quoted messages carry the title right after "Task '" and end with the status or the date |
| NotificationServices.KindsAreDistinctAndKnown | frontend/src/types/index.ts:123-129 | the six builders produce six different kinds, which are exactly the client's notification types |
| NotificationServices.NotificationService.constructor | backend/app/Services/NotificationService.php:12-14 | the service holds the repository it is given |
| NotificationServices.NotificationService.MarkAsRead | backend/app/Services/NotificationService.php:39-50 | NOT_FOUND and no change when the user does not own the notification; otherwise it is stamped read and returned, and an unread one lowers the user's unread count by one |
| NotificationServices.NotificationService.MarkAsUnread | backend/app/Services/NotificationService.php:52-63 | NOT_FOUND and no change when the user does not own it; otherwise `read_at` is cleared and it counts as unread |
| NotificationServices.NotificationService.Notify | backend/app/Services/NotificationService.php:80-94 | the draft is stored under an id not used before as one new unread notification, that id joins the user's unread set, and no other row changes |
| AuthServices.FirstMatch | backend/app/Services/AuthService.php:70-88 | nothing exactly when no user matches; otherwise the first matching user in list order |
| AuthServices.FirstMatchIsFirst | backend/app/Services/AuthService.php:70-78 | no user before the one found matches, and the found one does |
| AuthServices.FormatUserResponse | backend/app/Services/AuthService.php:112-122 | the id, name, email, role, organization and avatar of the record, and no password |
| AuthServices.FormatDropsOnlyPassword | backend/app/Services/AuthService.php:112-122 | the record is the formatted response with its password put back, so only the password is dropped |
| AuthServices.FormatAll | backend/app/Services/AuthService.php:124-129 | one formatted entry per user, in order |
| AuthServices.MockUsersAreUnique | backend/config/mock_users.php:16-62 | the five mock users have pairwise different ids and emails |
| AuthServices.LoginExamples | backend/config/mock_users.php:16-62 | a listed email with 'password123' logs in as that user; a wrong password or an unknown email is refused |
| AuthServices.AuthService.constructor | backend/app/Services/AuthService.php:13-17 | the service holds the users, the token signer and the token validator it is given |
| AuthServices.AuthService.FindMockUser | backend/app/Services/AuthService.php:70-88 | the loop returns the first user in list order that matches, or nothing |
| AuthServices.AuthService.FindMockUserByEmail | backend/app/Services/AuthService.php:70-78 | the first user with that email, or nothing |
| AuthServices.AuthService.FindMockUserById | backend/app/Services/AuthService.php:80-88 | the first user with that id, or nothing |
| AuthServices.AuthService.AttemptLogin | backend/app/Services/AuthService.php:19-35 | nothing exactly when no user has the email or the password differs; otherwise the signed token and the formatted user, whose id, email, role and organization are the record's |
| AuthServices.AuthService.GetUserFromToken | backend/app/Services/AuthService.php:37-52 | nothing when validation fails or the subject is no known id; otherwise the formatted user with that id |
| AuthServices.AuthService.GetFullUserFromToken | backend/app/Services/AuthService.php:54-63 | nothing for an invalid token; otherwise the first mock record with the subject as id, password included, which formats to what `getUserFromToken` returns |
| AuthServices.AuthService.GetTokenPayload | backend/app/Services/AuthService.php:65-68 | the validator's answer |
| AuthServices.AuthService.GetAllMockUsers | backend/app/Services/AuthService.php:124-129 | one entry per mock user, in order, with no password |
| JwtMiddleware.LowerAscii | backend/app/Http/Middleware/JwtAuthenticate.php:52 | the `i` flag: ASCII capitals fold to lower case, every other character is kept |
| JwtMiddleware.SpaceEnd | backend/app/Http/Middleware/JwtAuthenticate.php:52 | the end of the maximal whitespace run from a position |
| JwtMiddleware.LineEnd | backend/app/Http/Middleware/JwtAuthenticate.php:52 | the first line feed at or after a position, or the end: where `.*` stops |
| JwtMiddleware.MatchAt | backend/app/Http/Middleware/JwtAuthenticate.php:52-54 | a match at a start requires "Bearer" plus whitespace there; its capture has no line feed and does not start with whitespace |
| JwtMiddleware.MatchFrom | backend/app/Http/Middleware/JwtAuthenticate.php:52-54 | the capture of the first start from which the pattern matches |
| JwtMiddleware.MatchFromIsLeftmost | backend/app/Http/Middleware/JwtAuthenticate.php:52-54 | the capture is that of the leftmost matching start, with no match before it |
| JwtMiddleware.MatchFromNoneIff | backend/app/Http/Middleware/JwtAuthenticate.php:52-56 | no capture exactly when no start matches |
| JwtMiddleware.ExtractToken | backend/app/Http/Middleware/JwtAuthenticate.php:44-57 | nothing for a missing or falsy header; a token never contains a line feed |
| JwtMiddleware.SingleLineTokenIsRest | backend/app/Http/Middleware/JwtAuthenticate.php:52-54 | on a header without line feeds, the token is everything after the leftmost "Bearer" and its whitespace |
| JwtMiddleware.NoBearerNoToken | backend/app/Http/Middleware/JwtAuthenticate.php:56 | without any "Bearer" followed by whitespace there is no token |
| JwtMiddleware.ExtractUsualHeaders | backend/app/Http/Middleware/JwtAuthenticate.php:44-57 | "Bearer abc" and "bearer \t abc" (a space, a tab and a space) both give "abc" |
| JwtMiddleware.ExtractOtherSchemes | backend/app/Http/Middleware/JwtAuthenticate.php:52-56 | "Basic abc" and "Bearerabc" (no white space after the scheme) give no token |
| JwtMiddleware.ExtractTrailingLineFeed | backend/app/Http/Middleware/JwtAuthenticate.php:52-54 | a final line feed is not part of the token |
| JwtMiddleware.ExtractInnerLineFeed | backend/app/Http/Middleware/JwtAuthenticate.php:52-56 | a line feed inside the rest of the header leaves no match at all |
| JwtMiddleware.ExtractFalsyTokens | backend/app/Http/Middleware/JwtAuthenticate.php:21-25 | "Bearer " gives "" and "Bearer 0" gives "0", and both are falsy, so `handle` treats them as no token |
| JwtMiddleware.Request.constructor | backend/app/Http/Middleware/JwtAuthenticate.php:19 | a request with its Authorization header and its attributes |
| JwtMiddleware.WithAuth | backend/app/Http/Middleware/JwtAuthenticate.php:35-39 | the five attributes: the user, the payload, and the user's id, organization and role |
| JwtMiddleware.JwtAuthenticate.constructor | backend/app/Http/Middleware/JwtAuthenticate.php:15-17 | the middleware holds the authentication service |
| JwtMiddleware.JwtAuthenticate.Handle | backend/app/Http/Middleware/JwtAuthenticate.php:19-42 | 401 'No token provided' when the token is not truthy; 401 'Invalid or expired token' when no user is found; otherwise the five attributes are set and the request is forwarded; a 401 leaves the attributes unchanged |
| JwtMiddleware.ForwardedIdentityIsTokenSubject | backend/app/Http/Middleware/JwtAuthenticate.php:35-39 | a forwarded request carries as its user id the subject of the validated token |
| TasksStores.TasksStore.constructor | frontend/src/stores/tasks.ts:7-10 | all lists are empty and no task is open |
| TasksStores.TasksStore.TasksByStatus | frontend/src/stores/tasks.ts:22-37 | one column per board status, each holding exactly the tasks of that status in list order |
| TasksStores.TasksStore.CreateTask | frontend/src/stores/tasks.ts:110 | the new task is appended at the end |
| TasksStores.TasksStore.UpdateTask | frontend/src/stores/tasks.ts:132-142 | the first entry with that id in both lists, and a matching open task, become the answer; all else is unchanged |
| TasksStores.TasksStore.DeleteTask | frontend/src/stores/tasks.ts:164-168 | every entry with that id leaves both lists, the others keep their order, and a matching open task is closed |
| TasksStores.TasksStore.AddComment | frontend/src/stores/tasks.ts:199 | the comment is appended |
| TasksStores.TasksStore.DeleteComment | frontend/src/stores/tasks.ts:215 | every comment with that id is dropped, and the others keep their order |
| TasksStores.TasksStore.AddDependency | frontend/src/stores/tasks.ts:229-231 | only a matching open task changes |
| TasksStores.TasksStore.RemoveDependency | frontend/src/stores/tasks.ts:247-249 | only a matching open task changes |
| TasksStores.TasksStore.SetCurrentTask | frontend/src/stores/tasks.ts:261-263 | the open task is the given one |
| TasksStores.TasksStore.ClearTasks | frontend/src/stores/tasks.ts:265-269 | the list, the open task and the comments are emptied; the user's own tasks stay |
| TasksStores.ColumnsAreDisjoint | frontend/src/stores/tasks.ts:22-37 | no task is in two columns; a task of a board status is in its own column; a task of any other status is in none |
| TasksStores.UpdateAfterUpdateOrDelete | frontend/src/stores/tasks.ts:132-168 | the same update applied twice equals applying it once, and an update after a delete finds nothing to replace |
| TasksStores.DeleteKeepsOthers | frontend/src/stores/tasks.ts:164-168 | every task with another id survives a delete, and deleting twice equals deleting once |
| ProjectsStores.ProjectsStore.constructor | frontend/src/stores/projects.ts:7-8 | no projects and no open project |
| ProjectsStores.ProjectsStore.ActiveProjects | frontend/src/stores/projects.ts:20-22 | exactly the projects with status 'active' |
| ProjectsStores.ProjectsStore.ArchivedProjects | frontend/src/stores/projects.ts:24-26 | as written: exactly the projects whose `deleted_at` is not `null`, in order, which includes projects sent without the key |
| ProjectsStores.ProjectsStore.DeletedProjects | frontend/src/stores/projects.ts:24-26 | as intended: exactly the projects that carry a deletion time, in order |
| ProjectsStores.ArchivedListsProjectsSentWithoutDeletion | frontend/src/stores/projects.ts:24-26 | when no project carries a `deleted_at` key, every project is listed as archived, yet none carries a deletion time |
| ProjectsStores.DeletedAgreesWhenFieldSent | frontend/src/stores/projects.ts:24-26 | every project with a deletion time is archived, and when every project carries the key the two lists are equal |
| ProjectsStores.ProjectsStore.CreateProject | frontend/src/stores/projects.ts:78 | the new project is put in front |
| ProjectsStores.ProjectsStore.UpdateProject | frontend/src/stores/projects.ts:100-106 | the first entry with that id, and a matching open project, become the answer |
| ProjectsStores.ProjectsStore.DeleteProject | frontend/src/stores/projects.ts:128-131 | every entry with that id leaves the list, and a matching open project is closed |
| ProjectsStores.ProjectsStore.RestoreProject | frontend/src/stores/projects.ts:151-154 | an entry with that id is replaced; an absent project is never inserted, and the length is kept |
| ProjectsStores.ProjectsStore.AddMember | frontend/src/stores/projects.ts:176-178 | only a matching open project changes |
| ProjectsStores.ProjectsStore.RemoveMember | frontend/src/stores/projects.ts:200-202 | only a matching open project changes |
| ProjectsStores.ProjectsStore.ClearCurrentProject | frontend/src/stores/projects.ts:217-219 | no project is open |
| ProjectsStores.ActiveAndArchivedOverlap | frontend/src/stores/projects.ts:20-26 | a project with a deletion time whose status is still 'active' is listed under both computeds |
| ProjectsStores.RestoreAfterDeleteIsNoOp | frontend/src/stores/projects.ts:128-154 | restoring a project just deleted from the list does not bring it back |
| ProjectsStores.CreateKeepsActiveOrder | frontend/src/stores/projects.ts:20-22 | after a create, the active projects are the new one (if active) followed by the previous active ones |
| NotificationsStores.DecrementClamped | frontend/src/stores/notifications.ts:69 | `Math.max(0, count - 1)`: never negative, and one less for a positive count |
| NotificationsStores.NotificationsStore.constructor | frontend/src/stores/notifications.ts:7-8 | no notifications and a zero counter |
| NotificationsStores.NotificationsStore.UnreadNotifications | frontend/src/stores/notifications.ts:20-22 | exactly the unread entries |
| NotificationsStores.NotificationsStore.ReadNotifications | frontend/src/stores/notifications.ts:24-26 | exactly the read entries |
| NotificationsStores.NotificationsStore.MarkAsRead | frontend/src/stores/notifications.ts:65-69 | the entry is replaced and the counter drops by one but never below zero |
| NotificationsStores.NotificationsStore.MarkAsUnread | frontend/src/stores/notifications.ts:85-89 | the entry is replaced and the counter grows by exactly one |
| NotificationsStores.NotificationsStore.MarkAllAsRead | frontend/src/stores/notifications.ts:105-109 | each entry is marked read with the given time stamp, length and order are kept, the counter is 0, and no entry is unread |
| NotificationsStores.NotificationsStore.DeleteNotification | frontend/src/stores/notifications.ts:123-127 | the counter drops (not below zero) only when the first entry with the id exists and is unread; then every entry with that id is removed |
| NotificationsStores.NotificationsStore.DeleteAllRead | frontend/src/stores/notifications.ts:141 | exactly the unread entries remain, in order, and the counter is unchanged |
| NotificationsStores.AllReadFilters | frontend/src/stores/notifications.ts:105-109 | a list of read entries has no unread entry and is its own read list |
| NotificationsStores.NoneReadAfterFilter | frontend/src/stores/notifications.ts:141 | a list of unread entries has no read entry |
| NotificationsStores.UnreadReadPartition | frontend/src/stores/notifications.ts:20-26 | the unread and read lists split the notifications: every entry is in exactly one of them, as often as in the list |
| NotificationsStores.MarkAsReadOfReadEntryUndercounts | frontend/src/stores/notifications.ts:65-69 | marking an already-read entry as read leaves the list as it is but still lowers the counter, so the counter falls below the number of unread entries |
| AuthStores.AuthStore.constructor | frontend/src/stores/auth.ts:8-9 | no user, and the token taken from storage |
| AuthStores.AuthStore.IsAuthenticated | frontend/src/stores/auth.ts:13 | `!!token`: signed in exactly when there is a non-empty token |
| AuthStores.AuthStore.IsAdmin | frontend/src/stores/auth.ts:14 | there is a user and their role is exactly 'admin' |
| AuthStores.AuthStore.IsProjectManager | frontend/src/stores/auth.ts:15 | there is a user and their role is 'project_manager' or 'admin' |
| AuthStores.AuthStore.IsMember | frontend/src/stores/auth.ts:16 | there is a user and their role is exactly 'member' |
| AuthStores.AuthStore.CanManageProject | frontend/src/stores/auth.ts:93-100 | false without a user; true for an admin; for a project manager exactly when no manager id is given or it is their own; false for every other role |
| AuthStores.AuthStore.CanUpdateTask | frontend/src/stores/auth.ts:102-107 | false without a user; true for admins and project managers; for others exactly when the task is assigned to them |
| AuthStores.AuthStore.Login | frontend/src/stores/auth.ts:24-27 | the answer's token and user are taken over |
| AuthStores.AuthStore.Logout | frontend/src/stores/auth.ts:43-58 | afterwards neither token nor user, so no role computed holds |
| AuthStores.AuthStore.FetchUser | frontend/src/stores/auth.ts:60-81 | without a truthy token nothing changes; a successful answer sets the user; an unsuccessful answer changes nothing; a failed request clears both token and user |
| AuthStores.RolesNest | frontend/src/stores/auth.ts:14-16 | every admin counts as a project manager, no project manager is a member, and `isProjectManager` holds exactly for the two manager roles |
| AuthStores.ManageImpliesUpdate | frontend/src/stores/auth.ts:93-107 | whoever may manage a project may also update any of its tasks, and without a user neither is allowed |
| AuthStores.ManagerOfOtherProject | frontend/src/stores/auth.ts:93-100 | a project manager is refused another manager's project, but not an unspecified one or one of their own |
| AccessRules.ManagerRolesAgree | backend/app/Services/ProjectService.php:254-257 | the two services grant management to the same roles, and the client's `isProjectManager` shows exactly those roles |
| AccessRules.ClientManageIsStricter | frontend/src/stores/auth.ts:93-100 | the client never allows management that the server's role check refuses, and refuses a project manager another manager's project, which the server allows |
| AccessRules.VisibilityGuardMatchesAccess | backend/app/Services/TaskService.php:34-38 | for public and private projects, the task lists' visibility guard lets a caller through exactly when `canAccessProject` grants access |

## Left out

- HTTP is not modelled: controllers, routing, JSON shaping of responses and request validation are framework plumbing. `$next($request)` is modelled as the answer `Forwarded`, and what the next handler does is not modelled.
- JWT signing, verification and expiry are left out. `createToken` and `validateToken` are functions given to `AuthService`, and the validator may return nothing.
- Timestamps (`now()`, `new Date().toISOString()`) are a `now` parameter.
- Only the filters and the sort normalisation described above are modelled in the listing queries (`getByProject`, `getByUser`, `applyFilters`). Their `LIKE` search, date-range filters, pagination, eager loading and result order are left out. A listing is a set of ids.
- `$visited` in `hasDependencyPath` is a set, and a task's dependencies are taken in an arbitrary order. The answer does not depend on the order, but the order in which the source visits them is not modelled.
- Activity logging and `syncUserToDatabase` are bookkeeping with no effect on the rules shown here, so they are left out.
- Requests are handled one at a time. The check-then-insert race in `addDependency` is not modelled.
- These `TaskService` operations are not modelled: `getMyTasks`, `updateTask`, `deleteTask`, `restoreTask`, `getDependencies`, `getComments` and `addComment`. The repository operations beneath them are modelled.
- These pass-through methods of `NotificationService` are not modelled separately, since they only call the repository methods modelled above: `getNotifications`, `getUnreadNotifications`, `getUnreadCount`, `getNotification`, `markAllAsRead`, `deleteNotification` and `deleteAllRead`.
- In the client stores, only the state update of each successful branch is modelled. These parts are left out:
  - the `fetch*` actions;
  - `initializeFromStorage` and notification polling;
  - `localStorage` and the router;
  - the `loading` and `error` flags;
  - the failure branches, except the one in `fetchUser`.
- TasksStores.TasksStore.TasksByStatus: a status named like a JavaScript prototype property (such as "constructor") is not modelled. There, `grouped[task.status]` is truthy without the status being a column. The model treats only the six columns as keys.
- JwtMiddleware.LowerAscii: the `i` flag is modelled for ASCII letters only; PCRE's case folding of other characters is not modelled.
- NotificationsStores.NotificationsStore.MarkAllAsRead: one `now` parameter stands for the `new Date().toISOString()` that frontend/src/stores/notifications.ts:107 reads for each entry, so time stamps that differ from one entry to the next are not modelled.

## Findings

| source | as written | input that shows it | evidently intended | confidence | as-written member | corrected member |
|---|---|---|---|---|---|---|
| backend/app/Services/TaskService.php:66 | after checking that the caller may see the requested project, `getTask` loads the task with `findWithDetails($taskId)`, which does not filter by project | project 1 is public in the caller's organization; task 7 belongs to a private project 2 of another organization; `getTask(org, 1, user, 'member', 7)` returns task 7 | return only a task of the requested project, as `findByProject` does | not executed | TaskServices.GetTaskReturnsTaskOfOtherProject | TaskServices.TaskService.GetTaskInProject |
| frontend/src/stores/projects.ts:24-26 | `archivedProjects` keeps the projects with `p.deleted_at !== null`, which also holds when the key is missing; the project resource (backend/app/Http/Resources/ProjectResource.php:12-38) never sends `deleted_at` | any list of projects loaded from the API, such as one active project, is listed in full as archived | list only projects whose `deleted_at` holds a deletion time | not executed | ProjectsStores.ArchivedListsProjectsSentWithoutDeletion | ProjectsStores.ProjectsStore.DeletedProjects |
