/** The client-side project cache (`useProjectsStore`): the loaded project list
    and the open project. Only the state updates of the successful branches are
    modelled; the server's answer is a parameter. */
module ProjectsStores {
  import opened Common

  /** A field of a decoded JSON object: the key may be missing, hold `null`, or
      hold a value. */
  datatype JsonField<T> = Missing | Null | Given(value: T)

  /** The fields of a client project the store looks at. */
  datatype ClientProject = ClientProject(
    id: int,
    organizationId: int,
    title: string,
    status: string,
    visibility: string,
    deletedAt: JsonField<string>)

  function ProjectHasId(id: int): ClientProject -> bool {
    (p: ClientProject) => p.id == id
  }

  function ProjectLacksId(id: int): ClientProject -> bool {
    (p: ClientProject) => p.id != id
  }

  predicate IsActive(p: ClientProject) {
    p.status == "active"
  }

  /** `p.deleted_at !== null`: true for a deletion time and for a missing key. */
  predicate IsArchived(p: ClientProject) {
    !p.deletedAt.Null?
  }

  /** A deletion time is present. */
  predicate HasDeletionTime(p: ClientProject) {
    p.deletedAt.Given?
  }

  class ProjectsStore {
    var projects: seq<ClientProject>
    var currentProject: Option<ClientProject>

    constructor ()
      ensures projects == [] && currentProject.None?
    {
      projects, currentProject := [], None;
    }

    /** `activeProjects`: exactly the projects with status "active", in order. */
    function ActiveProjects(): (r: seq<ClientProject>)
      reads this
      ensures forall p :: p in r <==> p in projects && p.status == "active"
      ensures |r| <= |projects|
    {
      Filter(projects, IsActive)
    }

    /** `archivedProjects` as written: exactly the projects whose `deleted_at` is
        not `null`, in order, which includes those sent without the key. */
    function ArchivedProjects(): (r: seq<ClientProject>)
      reads this
      ensures forall p :: p in r <==> p in projects && !p.deletedAt.Null?
      ensures |r| <= |projects|
    {
      Filter(projects, IsArchived)
    }

    /** `archivedProjects` as evidently intended: exactly the projects that carry
        a deletion time, in order. */
    function DeletedProjects(): (r: seq<ClientProject>)
      reads this
      ensures forall p :: p in r <==> p in projects && p.deletedAt.Given?
      ensures |r| <= |projects|
    {
      Filter(projects, HasDeletionTime)
    }

    /** `createProject`: the new project goes to the front. */
    method CreateProject(created: ClientProject)
      modifies this`projects
      ensures projects == [created] + old(projects)
    {
      projects := [created] + projects;
    }

    /** `updateProject`: the first entry with that id, and the open project when it
        is that project, become the server's copy. */
    method UpdateProject(projectId: int, updated: ClientProject)
      modifies this`projects, this`currentProject
      ensures projects == ReplaceFirst(old(projects), ProjectHasId(projectId), updated)
      ensures currentProject == ReplaceIfCurrent(old(currentProject), ProjectHasId(projectId), updated)
    {
      var index := FindIndex(projects, ProjectHasId(projectId));
      if index != -1 {
        projects := projects[index := updated];
      }
      currentProject := ReplaceIfCurrent(currentProject, ProjectHasId(projectId), updated);
    }

    /** `deleteProject`: every entry with that id leaves the list, and the open
        project is closed when it is that project. */
    method DeleteProject(projectId: int)
      modifies this`projects, this`currentProject
      ensures projects == Filter(old(projects), ProjectLacksId(projectId))
      ensures forall p :: p in projects ==> p.id != projectId
      ensures currentProject == if old(currentProject).Some? && old(currentProject).value.id == projectId then None
                                else old(currentProject)
    {
      projects := Filter(projects, ProjectLacksId(projectId));
      if currentProject.Some? && currentProject.value.id == projectId {
        currentProject := None;
      }
    }

    /** `restoreProject`: the entry with that id is replaced; a project that is not
        in the list is not added, and the open project is left alone. */
    method RestoreProject(projectId: int, restored: ClientProject)
      modifies this`projects
      ensures projects == ReplaceFirst(old(projects), ProjectHasId(projectId), restored)
      ensures |projects| == |old(projects)|
      ensures (forall i :: 0 <= i < |old(projects)| ==> old(projects)[i].id != projectId) ==> projects == old(projects)
    {
      var index := FindIndex(projects, ProjectHasId(projectId));
      if index != -1 {
        projects := projects[index := restored];
      }
    }

    /** `addMember`: only the open project changes, and only when it is that one. */
    method AddMember(projectId: int, updated: ClientProject)
      modifies this`currentProject
      ensures currentProject == ReplaceIfCurrent(old(currentProject), ProjectHasId(projectId), updated)
    {
      currentProject := ReplaceIfCurrent(currentProject, ProjectHasId(projectId), updated);
    }

    /** `removeMember`: the same update as `addMember`. */
    method RemoveMember(projectId: int, updated: ClientProject)
      modifies this`currentProject
      ensures currentProject == ReplaceIfCurrent(old(currentProject), ProjectHasId(projectId), updated)
    {
      currentProject := ReplaceIfCurrent(currentProject, ProjectHasId(projectId), updated);
    }

    /** `clearCurrentProject`. */
    method ClearCurrentProject()
      modifies this`currentProject
      ensures currentProject.None?
    {
      currentProject := None;
    }
  }

  /** A project that is archived but was active when deleted is listed under both
      computeds: the two are not exclusive. */
  lemma ActiveAndArchivedOverlap(s: ProjectsStore, p: ClientProject)
    requires s.projects == [p] && p.status == "active" && p.deletedAt.Given?
    ensures s.ActiveProjects() == [p] && s.ArchivedProjects() == [p]
  {
    assert p in s.ActiveProjects() && p in s.ArchivedProjects();
  }

  /** The discrepancy in `archivedProjects`: a list of projects sent without a
      `deleted_at` key, as the project resource sends every project, is archived
      in full, while none of them carries a deletion time. */
  lemma ArchivedListsProjectsSentWithoutDeletion(s: ProjectsStore)
    requires forall i :: 0 <= i < |s.projects| ==> s.projects[i].deletedAt.Missing?
    ensures s.ArchivedProjects() == s.projects
    ensures s.DeletedProjects() == []
  {
    FilterAllOrNone(s.projects, IsArchived);
    FilterAllOrNone(s.projects, HasDeletionTime);
  }

  /** Where every project carries the key, the list as written and the
      intended list agree; in any list the intended one keeps a subset. */
  lemma DeletedAgreesWhenFieldSent(s: ProjectsStore)
    ensures forall p :: p in s.DeletedProjects() ==> p in s.ArchivedProjects()
    ensures (forall i :: 0 <= i < |s.projects| ==> !s.projects[i].deletedAt.Missing?) ==>
      s.DeletedProjects() == s.ArchivedProjects()
  {
    if forall i :: 0 <= i < |s.projects| ==> !s.projects[i].deletedAt.Missing? {
      FilterAgrees(s.projects, HasDeletionTime, IsArchived);
    }
  }

  /** Restoring the just-deleted project finds nothing to replace, so the list
      stays without it until it is loaded again. */
  lemma RestoreAfterDeleteIsNoOp(projects: seq<ClientProject>, projectId: int, restored: ClientProject)
    ensures ReplaceFirst(Filter(projects, ProjectLacksId(projectId)), ProjectHasId(projectId), restored)
         == Filter(projects, ProjectLacksId(projectId))
  {
    var kept := Filter(projects, ProjectLacksId(projectId));
    assert forall i :: 0 <= i < |kept| ==> kept[i] in kept;
  }

  /** The active projects of a list with a new project in front are that
      project, when active, followed by the active projects of the old list. */
  lemma CreateKeepsActiveOrder(projects: seq<ClientProject>, created: ClientProject)
    ensures Filter([created] + projects, IsActive)
         == (if IsActive(created) then [created] else []) + Filter(projects, IsActive)
  {
    FilterAppend([created], projects, IsActive);
  }
}
