/** The project service: access and management rules, project creation with its
    initial members, the partial update, and membership changes with their
    guards. */
module ProjectServices {
  import opened Common
  import opened ProjectRepositories

  /** The fields a create request may carry; a missing or null field is `None`. */
  datatype ProjectInput = ProjectInput(
    title: string,
    description: Option<string>,
    startDate: Option<string>,
    endDate: Option<string>,
    status: Option<string>,
    visibility: Option<string>,
    managerId: Option<int>)

  /** The fields an update request may carry; a missing or null field is `None`
      and leaves the stored value as it is. */
  datatype ProjectPatch = ProjectPatch(
    title: Option<string>,
    description: Option<string>,
    startDate: Option<string>,
    endDate: Option<string>,
    status: Option<string>,
    visibility: Option<string>,
    managerId: Option<int>)

  const EMPTY_PATCH: ProjectPatch := ProjectPatch(None, None, None, None, None, None, None)

  /** The row `createProject` inserts: the manager defaults to the creator, the
      status to 'planning' and the visibility to 'public' (the id is assigned by
      the store). */
  function NewProjectRow(organizationId: int, userId: int, data: ProjectInput): (p: Project)
    ensures p.organizationId == organizationId && p.createdBy == userId
    ensures p.managerId == (if data.managerId.Some? then data.managerId.value else userId)
    ensures p.title == data.title && p.description == data.description
    ensures p.startDate == data.startDate && p.endDate == data.endDate
    ensures p.status == (if data.status.Some? then data.status.value else "planning")
    ensures p.visibility == (if data.visibility.Some? then data.visibility.value else "public")
  {
    Project(0, organizationId, userId, data.managerId.GetOr(userId), data.title, data.description,
            data.startDate, data.endDate, data.status.GetOr("planning"), data.visibility.GetOr("public"))
  }

  /** A stored optional column after an update: a supplied value replaces it. */
  function MergeOpt<T>(stored: Option<T>, supplied: Option<T>): Option<T> {
    if supplied.Some? then supplied else stored
  }

  /** `updateProject`'s merge: every supplied (non-null) field overwrites the
      stored one, every other field keeps its value. */
  function Merge(p: Project, patch: ProjectPatch): (r: Project)
    ensures r.id == p.id && r.organizationId == p.organizationId && r.createdBy == p.createdBy
    ensures r.title == patch.title.GetOr(p.title)
    ensures r.description == (if patch.description.Some? then patch.description else p.description)
    ensures r.startDate == (if patch.startDate.Some? then patch.startDate else p.startDate)
    ensures r.endDate == (if patch.endDate.Some? then patch.endDate else p.endDate)
    ensures r.status == patch.status.GetOr(p.status)
    ensures r.visibility == patch.visibility.GetOr(p.visibility)
    ensures r.managerId == patch.managerId.GetOr(p.managerId)
  {
    p.(title := patch.title.GetOr(p.title),
       description := MergeOpt(p.description, patch.description),
       startDate := MergeOpt(p.startDate, patch.startDate),
       endDate := MergeOpt(p.endDate, patch.endDate),
       status := patch.status.GetOr(p.status),
       visibility := patch.visibility.GetOr(p.visibility),
       managerId := patch.managerId.GetOr(p.managerId))
  }

  /** An update that supplies nothing changes nothing. */
  lemma MergeEmptyPatch(p: Project)
    ensures Merge(p, EMPTY_PATCH) == p
  {
  }

  /** Applying the same update twice has the effect of applying it once. */
  lemma MergeIdempotent(p: Project, patch: ProjectPatch)
    ensures Merge(Merge(p, patch), patch) == Merge(p, patch)
  {
  }

  /** Two updates in a row act as one update carrying the later value of each
      field that either supplies. */
  lemma MergeCompose(p: Project, first: ProjectPatch, second: ProjectPatch)
    ensures Merge(Merge(p, first), second)
         == Merge(p, ProjectPatch(MergeOpt(first.title, second.title),
                                  MergeOpt(first.description, second.description),
                                  MergeOpt(first.startDate, second.startDate),
                                  MergeOpt(first.endDate, second.endDate),
                                  MergeOpt(first.status, second.status),
                                  MergeOpt(first.visibility, second.visibility),
                                  MergeOpt(first.managerId, second.managerId)))
  {
  }

  /** `canManageProject`: exactly the admin and project-manager roles. */
  function CanManageProject(role: string): (r: bool)
    ensures r <==> role == ADMIN || role == PROJECT_MANAGER
  {
    IsManagerRole(role)
  }

  class ProjectService {
    const projectRepository: ProjectRepository
    /** The `organization_users` rows as (organization, user) pairs. */
    const organizationUsers: set<(int, int)>

    constructor (projectRepository: ProjectRepository, organizationUsers: set<(int, int)>)
      ensures this.projectRepository == projectRepository && this.organizationUsers == organizationUsers
    {
      this.projectRepository := projectRepository;
      this.organizationUsers := organizationUsers;
    }

    /** `canAccessProject`: admins and project managers see every project, anyone
        sees a public one, and otherwise membership decides. */
    predicate CanAccessProject(project: Project, userId: int, role: string)
      reads projectRepository
    {
      IsManagerRole(role) || project.visibility == "public" || projectRepository.IsMember(project.id, userId)
    }

    /** `getProject`: nothing for a project outside the organization or one the
        caller may not access; otherwise the stored project. */
    function GetProject(organizationId: int, userId: int, role: string, projectId: int): (r: Option<Project>)
      reads projectRepository
      ensures r.Some? <==> projectRepository.FindByOrganization(organizationId, projectId).Some?
                           && CanAccessProject(projectRepository.projects[projectId], userId, role)
      ensures r.Some? ==> r.value == projectRepository.projects[projectId]
                          && r.value.organizationId == organizationId
    {
      var project := projectRepository.FindByOrganization(organizationId, projectId);
      if project.None? || !CanAccessProject(project.value, userId, role) then None
      else Some(project.value)
    }

    /** `createProject`: the new project gets the creator as member and, when a
        different manager is named, the manager as member too; no other
        membership changes. */
    method CreateProject(organizationId: int, userId: int, data: ProjectInput) returns (p: Project)
      requires projectRepository.Valid()
      modifies projectRepository`projects, projectRepository`nextId, projectRepository`members
      ensures projectRepository.Valid()
      ensures p == NewProjectRow(organizationId, userId, data).(id := p.id)
      ensures p.id !in old(projectRepository.projects)
      ensures projectRepository.projects == old(projectRepository.projects)[p.id := p]
      ensures projectRepository.IsMember(p.id, userId)
      ensures projectRepository.IsMember(p.id, p.managerId)
      ensures forall row :: row in projectRepository.members <==>
        row in old(projectRepository.members) || row == MemberRow(p.id, userId) || row == MemberRow(p.id, p.managerId)
    {
      p := projectRepository.Create(NewProjectRow(organizationId, userId, data));
      var addedCreator := projectRepository.AddMember(p.id, userId);
      if data.managerId.Some? && data.managerId.value != userId {
        var addedManager := projectRepository.AddMember(p.id, data.managerId.value);
      }
    }

    /** `updateProject`: nothing for a project outside the organization; otherwise
        the stored project becomes its merge with the supplied fields. */
    method UpdateProject(organizationId: int, userId: int, projectId: int, patch: ProjectPatch)
      returns (r: Option<Project>)
      requires projectRepository.Valid()
      modifies projectRepository`projects
      ensures projectRepository.Valid()
      ensures r.Some? <==> old(projectRepository.FindByOrganization(organizationId, projectId)).Some?
      ensures r.Some? ==> r.value == Merge(old(projectRepository.projects)[projectId], patch)
                          && projectRepository.projects == old(projectRepository.projects)[projectId := r.value]
      ensures r.None? ==> projectRepository.projects == old(projectRepository.projects)
    {
      var project := projectRepository.FindByOrganization(organizationId, projectId);
      if project.None? {
        return None;
      }
      r := projectRepository.Update(projectId, Merge(project.value, patch));
    }

    /** `addMember`: the project must be in the organization, the user must belong
        to the organization and must not be a member yet; only then is the one
        row added. */
    method AddMember(organizationId: int, userId: int, projectId: int, memberId: int) returns (r: Outcome<Project>)
      requires projectRepository.Valid()
      modifies projectRepository`members
      ensures projectRepository.Valid()
      ensures projectRepository.FindByOrganization(organizationId, projectId).None? ==>
        r == Failure("Project not found", NotFound)
      ensures projectRepository.FindByOrganization(organizationId, projectId).Some?
              && (organizationId, memberId) !in organizationUsers ==>
        r == Failure("User is not a member of this organization", InvalidUser)
      ensures projectRepository.FindByOrganization(organizationId, projectId).Some?
              && (organizationId, memberId) in organizationUsers
              && old(projectRepository.IsMember(projectId, memberId)) ==>
        r == Failure("User is already a member of this project", AlreadyMember)
      ensures projectRepository.FindByOrganization(organizationId, projectId).Some?
              && (organizationId, memberId) in organizationUsers
              && !old(projectRepository.IsMember(projectId, memberId)) ==>
        r == Success(projectRepository.projects[projectId])
      ensures r.Failure? ==> projectRepository.members == old(projectRepository.members)
      ensures r.Success? ==>
        projectRepository.members == old(projectRepository.members) + [MemberRow(projectId, memberId)]
    {
      var project := projectRepository.FindByOrganization(organizationId, projectId);
      if project.None? {
        return Failure("Project not found", NotFound);
      }
      if (organizationId, memberId) !in organizationUsers {
        return Failure("User is not a member of this organization", InvalidUser);
      }
      if projectRepository.IsMember(projectId, memberId) {
        return Failure("User is already a member of this project", AlreadyMember);
      }
      var added := projectRepository.AddMember(projectId, memberId);
      r := Success(project.value);
    }

    /** `removeMember`: the project manager is refused before membership is even
        looked at; a non-member is not found; otherwise that one membership goes
        and every other row stays, so the manager's own membership survives. */
    method RemoveMember(organizationId: int, userId: int, projectId: int, memberId: int) returns (r: Outcome<Project>)
      requires projectRepository.Valid()
      modifies projectRepository`members
      ensures projectRepository.Valid()
      ensures projectRepository.FindByOrganization(organizationId, projectId).None? ==>
        r == Failure("Project not found", NotFound)
      ensures projectRepository.FindByOrganization(organizationId, projectId).Some?
              && projectRepository.projects[projectId].managerId == memberId ==>
        r == Failure("Cannot remove the project manager. Assign a new manager first.", CannotRemoveManager)
      ensures projectRepository.FindByOrganization(organizationId, projectId).Some?
              && projectRepository.projects[projectId].managerId != memberId
              && !old(projectRepository.IsMember(projectId, memberId)) ==>
        r == Failure("Member not found in this project", NotFound)
      ensures projectRepository.FindByOrganization(organizationId, projectId).Some?
              && projectRepository.projects[projectId].managerId != memberId
              && old(projectRepository.IsMember(projectId, memberId)) ==>
        r == Success(projectRepository.projects[projectId])
      ensures r.Failure? ==> projectRepository.members == old(projectRepository.members)
      ensures r.Success? ==> !projectRepository.IsMember(projectId, memberId)
      ensures forall row :: row in projectRepository.members <==>
        row in old(projectRepository.members) && (r.Failure? || row != MemberRow(projectId, memberId))
      ensures projectId in projectRepository.projects ==>
        (old(projectRepository.IsMember(projectId, projectRepository.projects[projectId].managerId))
         ==> projectRepository.IsMember(projectId, projectRepository.projects[projectId].managerId))
    {
      var project := projectRepository.FindByOrganization(organizationId, projectId);
      if project.None? {
        return Failure("Project not found", NotFound);
      }
      if project.value.managerId == memberId {
        return Failure("Cannot remove the project manager. Assign a new manager first.", CannotRemoveManager);
      }
      if !projectRepository.IsMember(projectId, memberId) {
        return Failure("Member not found in this project", NotFound);
      }
      var removed := projectRepository.RemoveMember(projectId, memberId);
      r := Success(project.value);
    }
  }

  /** For the three known roles and the two visibilities the listing query and the
      single-project access check agree: a project of the organization is listed
      exactly when `canAccessProject` allows it. */
  lemma ListingAgreesWithAccess(s: ProjectService, organizationId: int, userId: int, role: string, projectId: int)
    requires role in {ADMIN, PROJECT_MANAGER, MEMBER}
    requires projectId in s.projectRepository.projects
    requires s.projectRepository.projects[projectId].visibility in {"public", "private"}
    requires s.projectRepository.projects[projectId].id == projectId
    ensures projectId in s.projectRepository.AccessibleProjects(organizationId, userId, role)
        <==> s.projectRepository.projects[projectId].organizationId == organizationId
             && s.CanAccessProject(s.projectRepository.projects[projectId], userId, role)
  {
  }

  /** `canAccessProject` case by case: the two manager roles pass whatever the
      membership, a public project is open to every role, and otherwise the
      caller passes exactly when a membership row exists. */
  lemma AccessRuleCases(s: ProjectService, project: Project, userId: int, role: string)
    ensures IsManagerRole(role) ==> s.CanAccessProject(project, userId, role)
    ensures project.visibility == "public" ==> s.CanAccessProject(project, userId, role)
    ensures !IsManagerRole(role) && project.visibility != "public" ==>
      (s.CanAccessProject(project, userId, role) <==> s.projectRepository.IsMember(project.id, userId))
  {
  }

  /** An unknown role string lists a private project that `canAccessProject` refuses. */
  lemma UnknownRoleListsMoreThanItMayOpen(s: ProjectService, organizationId: int, userId: int, projectId: int)
    requires projectId in s.projectRepository.projects
    requires s.projectRepository.projects[projectId].id == projectId
    requires s.projectRepository.projects[projectId].organizationId == organizationId
    requires s.projectRepository.projects[projectId].visibility == "private"
    requires !s.projectRepository.IsMember(projectId, userId)
    ensures projectId in s.projectRepository.AccessibleProjects(organizationId, userId, "guest")
    ensures !s.CanAccessProject(s.projectRepository.projects[projectId], userId, "guest")
  {
  }
}
