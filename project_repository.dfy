/** The project store: the `projects` table (live and soft-deleted rows) and the
    `project_members` table, with the queries and updates of the project
    repository. */
module ProjectRepositories {
  import opened Common

  datatype Project = Project(
    id: int,
    organizationId: int,
    createdBy: int,
    managerId: int,
    title: string,
    description: Option<string>,
    startDate: Option<string>,
    endDate: Option<string>,
    status: string,
    visibility: string)

  /** One row of `project_members`. */
  datatype MemberRow = MemberRow(projectId: int, userId: int)

  /** The sort fields `applyFilters` accepts. */
  const ALLOWED_SORT_FIELDS: set<string> :=
    {"title", "status", "start_date", "end_date", "created_at", "updated_at"}

  /** The ordering `applyFilters` adds to the query: none when the requested field
      is not whitelisted; otherwise that field (default `created_at`), ascending
      only when exactly "asc" was asked for and descending in every other case. */
  function SortOrder(sortBy: Option<string>, sortDirection: Option<string>): (r: Option<(string, string)>)
    ensures r.Some? <==> sortBy.GetOr("created_at") in ALLOWED_SORT_FIELDS
    ensures r.Some? ==> r.value.0 == sortBy.GetOr("created_at")
    ensures r.Some? ==> r.value.1 in {"asc", "desc"}
    ensures r.Some? ==> (r.value.1 == "asc" <==> sortDirection == Some("asc"))
  {
    var field := sortBy.GetOr("created_at");
    var direction := sortDirection.GetOr("desc");
    if field in ALLOWED_SORT_FIELDS then Some((field, if direction == "asc" then "asc" else "desc"))
    else None
  }

  class ProjectRepository {
    /** Rows that are not soft-deleted, by id. */
    var projects: map<int, Project>
    /** Soft-deleted rows, by id. */
    var trashed: map<int, Project>
    /** The `project_members` rows, in insertion order. */
    var members: seq<MemberRow>
    /** The next auto-increment id. */
    var nextId: int

    ghost predicate Valid()
      reads this
    {
      && projects.Keys !! trashed.Keys
      && (forall id :: id in projects ==> projects[id].id == id && id < nextId)
      && (forall id :: id in trashed ==> trashed[id].id == id && id < nextId)
      && NoDuplicates(members)
    }

    constructor ()
      ensures Valid()
      ensures projects == map[] && trashed == map[] && members == []
    {
      projects, trashed, members, nextId := map[], map[], [], 1;
    }

    /** `findByOrganization`: a live project, and only if it belongs to `organizationId`. */
    function FindByOrganization(organizationId: int, projectId: int): (r: Option<Project>)
      reads this
      ensures r.Some? <==> projectId in projects && projects[projectId].organizationId == organizationId
      ensures r.Some? ==> r.value == projects[projectId]
    {
      if projectId in projects && projects[projectId].organizationId == organizationId
      then Some(projects[projectId]) else None
    }

    /** `isMember`: a (project, user) row exists. */
    predicate IsMember(projectId: int, userId: int)
      reads this
    {
      MemberRow(projectId, userId) in members
    }

    /** `getAccessibleProjects`: the live projects of the organization; for the role
        'member' only those that are public or that the user belongs to. Any other
        role string, known or not, sees every project of the organization. */
    function AccessibleProjects(organizationId: int, userId: int, role: string): (r: set<int>)
      reads this
      ensures forall id :: id in r ==> id in projects && projects[id].organizationId == organizationId
      ensures role != MEMBER ==>
        forall id :: id in projects && projects[id].organizationId == organizationId ==> id in r
      ensures role == MEMBER ==> forall id :: id in projects ==>
        (id in r <==> projects[id].organizationId == organizationId
                      && (projects[id].visibility == "public" || IsMember(id, userId)))
    {
      set id | id in projects && projects[id].organizationId == organizationId
               && (role != MEMBER || projects[id].visibility == "public" || IsMember(id, userId))
    }

    /** `create`: inserts a row under the next auto-increment id, which is returned. */
    method Create(row: Project) returns (created: Project)
      requires Valid()
      modifies this`projects, this`nextId
      ensures Valid()
      ensures created == row.(id := old(nextId))
      ensures created.id !in old(projects) && created.id !in trashed
      ensures projects == old(projects)[created.id := created]
    {
      created := row.(id := nextId);
      projects := projects[nextId := created];
      nextId := nextId + 1;
    }

    /** `update` (from the base repository): replaces a live row and returns it;
        nothing for an id that is not live. */
    method Update(projectId: int, row: Project) returns (r: Option<Project>)
      requires Valid()
      requires row.id == projectId
      modifies this`projects
      ensures Valid()
      ensures r.Some? <==> projectId in old(projects)
      ensures r.Some? ==> r.value == row && projects == old(projects)[projectId := row]
      ensures r.None? ==> projects == old(projects)
    {
      if projectId in projects {
        projects := projects[projectId := row];
        r := Some(row);
      } else {
        r := None;
      }
    }

    /** `addMember`: false and no change for an existing member; otherwise one row
        is added, so a (project, user) pair never occurs twice. */
    method AddMember(projectId: int, userId: int) returns (added: bool)
      requires Valid()
      modifies this`members
      ensures Valid()
      ensures added <==> !old(IsMember(projectId, userId))
      ensures members == if added then old(members) + [MemberRow(projectId, userId)] else old(members)
      ensures IsMember(projectId, userId)
    {
      if IsMember(projectId, userId) {
        added := false;
      } else {
        members := members + [MemberRow(projectId, userId)];
        added := true;
      }
    }

    /** `removeMember`: deletes every row of the pair and reports whether any was deleted. */
    method RemoveMember(projectId: int, userId: int) returns (removed: bool)
      requires Valid()
      modifies this`members
      ensures Valid()
      ensures removed <==> old(IsMember(projectId, userId))
      ensures !IsMember(projectId, userId)
      ensures forall row :: row in members <==> row in old(members) && row != MemberRow(projectId, userId)
    {
      var before := members;
      members := Filter(members, (row: MemberRow) => row != MemberRow(projectId, userId));
      FilterNoDuplicates(before, (row: MemberRow) => row != MemberRow(projectId, userId));
      FilterShrinks(before, (row: MemberRow) => row != MemberRow(projectId, userId));
      removed := |members| < |before|;
    }

    /** `restore`: only a soft-deleted project comes back; a live or unknown id gives false. */
    method Restore(projectId: int) returns (ok: bool)
      requires Valid()
      modifies this`projects, this`trashed
      ensures Valid()
      ensures ok <==> projectId in old(trashed)
      ensures ok ==> projects == old(projects)[projectId := old(trashed)[projectId]]
                     && trashed == old(trashed) - {projectId}
      ensures !ok ==> projects == old(projects) && trashed == old(trashed)
    {
      if projectId in trashed {
        projects := projects[projectId := trashed[projectId]];
        trashed := trashed - {projectId};
        ok := true;
      } else {
        ok := false;
      }
    }
  }
}
