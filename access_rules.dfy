/** How the permission rules of the layers relate: the two services' manager
    checks, the client's role computeds and helpers, and the task service's
    private-project guard against the project service's access check. */
module AccessRules {
  import opened Common
  import ProjectRepositories
  import ProjectServices
  import TaskServices
  import AuthStores

  /** The two services grant management by the same roles, and the client's
      `isProjectManager` shows exactly those roles. */
  lemma ManagerRolesAgree(store: AuthStores.AuthStore, role: string)
    requires store.user.Some? && store.user.value.role == role
    ensures ProjectServices.CanManageProject(role) == TaskServices.CanManageTask(role)
    ensures store.IsProjectManager() == ProjectServices.CanManageProject(role)
  {
  }

  /** The client's `canManageProject` never allows what the server's role check
      refuses; for a project manager and another manager's project it refuses
      what the server allows. */
  lemma ClientManageIsStricter(store: AuthStores.AuthStore, managerId: Option<int>)
    requires store.user.Some?
    ensures store.CanManageProject(managerId) ==> ProjectServices.CanManageProject(store.user.value.role)
    ensures store.user.value.role == PROJECT_MANAGER && managerId.Some? && managerId.value != store.user.value.id ==>
      !store.CanManageProject(managerId) && ProjectServices.CanManageProject(store.user.value.role)
  {
  }

  /** For the two visibilities the projects table allows, the private-project
      guard in front of the task lists lets a caller through exactly when
      `canAccessProject` grants access. */
  lemma VisibilityGuardMatchesAccess(s: ProjectServices.ProjectService, project: ProjectRepositories.Project,
                                     userId: int, role: string)
    requires project.visibility in {"public", "private"}
    ensures TaskServices.PassesVisibilityGuard(project, role, s.projectRepository.IsMember(project.id, userId))
        <==> s.CanAccessProject(project, userId, role)
  {
  }
}
