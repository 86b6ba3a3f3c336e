/** The client-side session (`useAuthStore`): the token and the signed-in user,
    the role computeds and the two permission helpers the views call. Storage,
    routing and the HTTP calls are left out; their outcomes are parameters. */
module AuthStores {
  import opened Common

  /** The fields of the client user the store looks at. */
  datatype ClientUser = ClientUser(id: int, name: string, email: string, role: string, organizationId: int)

  /** How the `me` request ended: an answer with its `success` flag, or a
      rejected request. */
  datatype MeOutcome = Answered(success: bool, user: ClientUser) | Rejected

  class AuthStore {
    var user: Option<ClientUser>
    var token: Option<string>

    /** The store starts with the token kept in storage and no user. */
    constructor (storedToken: Option<string>)
      ensures user.None? && token == storedToken
    {
      user, token := None, storedToken;
    }

    /** `isAuthenticated`: `!!token`, so an empty token counts as signed out. */
    predicate IsAuthenticated()
      reads this
    {
      JsTruthyOpt(token)
    }

    /** `isAdmin`. */
    predicate IsAdmin()
      reads this
    {
      user.Some? && user.value.role == ADMIN
    }

    /** `isProjectManager`: project managers and admins. */
    predicate IsProjectManager()
      reads this
    {
      user.Some? && (user.value.role == PROJECT_MANAGER || user.value.role == ADMIN)
    }

    /** `isMember`. */
    predicate IsMember()
      reads this
    {
      user.Some? && user.value.role == MEMBER
    }

    /** `canManageProject(managerId?)`: no user may not; an admin may; a project
        manager may when no manager id is given or it is their own; anyone else
        may not. */
    function CanManageProject(managerId: Option<int>): (r: bool)
      reads this
      ensures user.None? ==> !r
      ensures user.Some? && user.value.role == ADMIN ==> r
      ensures user.Some? && user.value.role == PROJECT_MANAGER ==>
        (r <==> managerId.None? || managerId.value == user.value.id)
      ensures user.Some? && !IsManagerRole(user.value.role) ==> !r
    {
      if user.None? then false
      else if user.value.role == ADMIN then true
      else if user.value.role == PROJECT_MANAGER then managerId == Some(user.value.id) || managerId.None?
      else false
    }

    /** `canUpdateTask(assigneeId?)`: no user may not; admins and project managers
        may; anyone else only when the task is assigned to them. */
    function CanUpdateTask(assigneeId: Option<int>): (r: bool)
      reads this
      ensures user.None? ==> !r
      ensures user.Some? && IsManagerRole(user.value.role) ==> r
      ensures user.Some? && !IsManagerRole(user.value.role) ==> (r <==> assigneeId == Some(user.value.id))
    {
      if user.None? then false
      else if user.value.role == ADMIN then true
      else if user.value.role == PROJECT_MANAGER then true
      else assigneeId == Some(user.value.id)
    }

    /** `login`, successful answer: the token and the user are taken over. */
    method Login(newToken: string, newUser: ClientUser)
      modifies this
      ensures token == Some(newToken) && user == Some(newUser)
    {
      token := Some(newToken);
      user := Some(newUser);
    }

    /** `logout`: whatever the server answers, the session ends with neither token
        nor user. */
    method Logout()
      modifies this
      ensures token.None? && user.None?
      ensures !IsAuthenticated() && !IsAdmin() && !IsProjectManager() && !IsMember()
    {
      token := None;
      user := None;
    }

    /** `fetchUser`: without a token nothing happens; a successful answer sets the
        user; an unsuccessful answer changes nothing; a rejected request clears
        both the token and the user. */
    method FetchUser(outcome: MeOutcome)
      modifies this
      ensures !JsTruthyOpt(old(token)) ==> token == old(token) && user == old(user)
      ensures JsTruthyOpt(old(token)) && outcome.Answered? && outcome.success ==>
        token == old(token) && user == Some(outcome.user)
      ensures JsTruthyOpt(old(token)) && outcome.Answered? && !outcome.success ==>
        token == old(token) && user == old(user)
      ensures JsTruthyOpt(old(token)) && outcome.Rejected? ==> token.None? && user.None?
    {
      if !JsTruthyOpt(token) {
        return;
      }
      match outcome
      case Answered(success, u) =>
        if success {
          user := Some(u);
        }
      case Rejected =>
        token := None;
        user := None;
    }
  }

  /** Every admin counts as a project manager, and no project manager as a member. */
  lemma RolesNest(s: AuthStore)
    ensures s.IsAdmin() ==> s.IsProjectManager()
    ensures !(s.IsProjectManager() && s.IsMember())
    ensures s.IsProjectManager() <==> s.user.Some? && IsManagerRole(s.user.value.role)
  {
  }

  /** Whoever may manage a project in the client may also update any of its
      tasks, and without a user neither is allowed. */
  lemma ManageImpliesUpdate(s: AuthStore, managerId: Option<int>, assigneeId: Option<int>)
    ensures s.CanManageProject(managerId) ==> s.CanUpdateTask(assigneeId)
    ensures s.user.None? ==> !s.CanManageProject(managerId) && !s.CanUpdateTask(assigneeId)
  {
  }

  /** A project manager is refused another manager's project, while an admin is
      not: the client check depends on the project, not on the role alone. */
  lemma ManagerOfOtherProject(s: AuthStore, otherManager: int)
    requires s.user.Some? && s.user.value.role == PROJECT_MANAGER && otherManager != s.user.value.id
    ensures !s.CanManageProject(Some(otherManager))
    ensures s.CanManageProject(None) && s.CanManageProject(Some(s.user.value.id))
  {
  }
}
