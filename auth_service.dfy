/** The mocked authentication service: the configured user list, login by email
    and password, and the user behind a token. Token signing and validation are
    parameters of the service (`createToken`, `validateToken`). */
module AuthServices {
  import opened Common

  /** One entry of the configured mock-user list. */
  datatype MockUser = MockUser(
    id: int,
    name: string,
    email: string,
    password: string,
    role: string,
    orgId: int,
    avatar: Option<string>)

  /** The user as the API shows it: the mock entry without its password. */
  datatype UserResponse = UserResponse(
    id: int,
    name: string,
    email: string,
    role: string,
    orgId: int,
    avatar: Option<string>)

  /** The claims of a valid token that the services read. */
  datatype TokenPayload = TokenPayload(sub: int, email: string, role: string, orgId: int)

  datatype LoginResult = LoginResult(token: string, user: UserResponse)

  /** How a mock user is looked up. */
  datatype Lookup = ByEmail(email: string) | ById(id: int)

  predicate Matches(u: MockUser, key: Lookup) {
    match key
    case ByEmail(email) => u.email == email
    case ById(id) => u.id == id
  }

  /** The first user in list order that matches, if any. */
  function FirstMatch(users: seq<MockUser>, key: Lookup): (r: Option<MockUser>)
    ensures r.None? <==> forall i :: 0 <= i < |users| ==> !Matches(users[i], key)
    ensures r.Some? ==> exists i :: 0 <= i < |users| && users[i] == r.value && Matches(users[i], key)
                                     && forall j :: 0 <= j < i ==> !Matches(users[j], key)
  {
    if users == [] then None
    else if Matches(users[0], key) then Some(users[0])
    else
      var rest := FirstMatch(users[1..], key);
      assert forall j :: 0 <= j < |users[1..]| ==> users[1..][j] == users[j + 1];
      rest
  }

  /** `formatUserResponse`: every field but the password. */
  function FormatUserResponse(u: MockUser): (r: UserResponse)
    ensures r.id == u.id && r.name == u.name && r.email == u.email
    ensures r.role == u.role && r.orgId == u.orgId && r.avatar == u.avatar
  {
    UserResponse(u.id, u.name, u.email, u.role, u.orgId, u.avatar)
  }

  /** The response together with the password gives back the full entry, so the
      password is the only thing the response leaves out. */
  function WithPassword(r: UserResponse, password: string): MockUser {
    MockUser(r.id, r.name, r.email, password, r.role, r.orgId, r.avatar)
  }

  lemma FormatDropsOnlyPassword(u: MockUser)
    ensures WithPassword(FormatUserResponse(u), u.password) == u
  {
  }

  /** `getAllMockUsers`: one formatted entry per mock user, in list order. */
  function FormatAll(users: seq<MockUser>): (r: seq<UserResponse>)
    ensures |r| == |users|
    ensures forall i :: 0 <= i < |users| ==> r[i] == FormatUserResponse(users[i])
  {
    seq(|users|, i requires 0 <= i < |users| => FormatUserResponse(users[i]))
  }

  /** The users of `config/mock_users.php`. */
  const MOCK_USERS: seq<MockUser> := [
    MockUser(1, "Admin User", "admin@example.com", "password123", "admin", 1, None),
    MockUser(2, "Project Manager", "manager@example.com", "password123", "project_manager", 1, None),
    MockUser(3, "Team Member", "member@example.com", "password123", "member", 1, None),
    MockUser(4, "Another Member", "member2@example.com", "password123", "member", 1, None),
    MockUser(5, "Org 2 Admin", "admin2@example.com", "password123", "admin", 2, None)
  ]

  class AuthService {
    const mockUsers: seq<MockUser>
    /** `JwtService::createTokenForUser`. */
    const createToken: MockUser -> string
    /** `JwtService::validateToken`: the payload of a valid, unexpired token. */
    const validateToken: string -> Option<TokenPayload>

    constructor (mockUsers: seq<MockUser>, createToken: MockUser -> string,
                 validateToken: string -> Option<TokenPayload>)
      ensures this.mockUsers == mockUsers && this.createToken == createToken
      ensures this.validateToken == validateToken
    {
      this.mockUsers := mockUsers;
      this.createToken := createToken;
      this.validateToken := validateToken;
    }

    /** The response `getUserFromToken` gives for a token. */
    function UserOfToken(token: string): Option<UserResponse> {
      var payload := validateToken(token);
      if payload.None? then None
      else
        var user := FirstMatch(mockUsers, ById(payload.value.sub));
        if user.None? then None else Some(FormatUserResponse(user.value))
    }

    /** The search loop shared by the two lookups: the first match in list order. */
    method FindMockUser(key: Lookup) returns (r: Option<MockUser>)
      ensures r == FirstMatch(mockUsers, key)
    {
      var i := 0;
      while i < |mockUsers|
        invariant 0 <= i <= |mockUsers|
        invariant forall j :: 0 <= j < i ==> !Matches(mockUsers[j], key)
      {
        if Matches(mockUsers[i], key) {
          FirstMatchIsFirst(mockUsers, key, i);
          return Some(mockUsers[i]);
        }
        i := i + 1;
      }
      r := None;
    }

    /** `findMockUserByEmail`: the first user with that email, or nothing. */
    method FindMockUserByEmail(email: string) returns (r: Option<MockUser>)
      ensures r.None? <==> forall i :: 0 <= i < |mockUsers| ==> mockUsers[i].email != email
      ensures r.Some? ==> exists i :: 0 <= i < |mockUsers| && mockUsers[i] == r.value && mockUsers[i].email == email
                                      && forall j :: 0 <= j < i ==> mockUsers[j].email != email
      ensures r == FirstMatch(mockUsers, ByEmail(email))
    {
      r := FindMockUser(ByEmail(email));
    }

    /** `findMockUserById`: the first user with that id, or nothing. */
    method FindMockUserById(id: int) returns (r: Option<MockUser>)
      ensures r.None? <==> forall i :: 0 <= i < |mockUsers| ==> mockUsers[i].id != id
      ensures r.Some? ==> r.value in mockUsers && r.value.id == id
      ensures r == FirstMatch(mockUsers, ById(id))
    {
      r := FindMockUser(ById(id));
    }

    /** `attemptLogin`: nothing when no user has the email or the first one with it
        has another password; otherwise a token for that user and the user's
        response, which carries the user's id, email, role and organization. */
    method AttemptLogin(email: string, password: string) returns (r: Option<LoginResult>)
      ensures var u := FirstMatch(mockUsers, ByEmail(email));
        r.None? <==> u.None? || u.value.password != password
      ensures var u := FirstMatch(mockUsers, ByEmail(email));
        r.Some? ==> r.value == LoginResult(createToken(u.value), FormatUserResponse(u.value))
      ensures r.Some? ==> r.value.user.email == email
                          && exists i :: 0 <= i < |mockUsers| && mockUsers[i].password == password
                                         && r.value.user == FormatUserResponse(mockUsers[i])
    {
      var mockUser := FindMockUserByEmail(email);
      if mockUser.None? || mockUser.value.password != password {
        return None;
      }
      r := Some(LoginResult(createToken(mockUser.value), FormatUserResponse(mockUser.value)));
    }

    /** `getUserFromToken`: nothing for a token that fails validation or whose
        subject is not a mock user; otherwise that user's response. */
    method GetUserFromToken(token: string) returns (r: Option<UserResponse>)
      ensures validateToken(token).None? ==> r.None?
      ensures validateToken(token).Some? ==>
        (r.Some? <==> exists i :: 0 <= i < |mockUsers| && mockUsers[i].id == validateToken(token).value.sub)
      ensures r.Some? ==> r.value.id == validateToken(token).value.sub
      ensures r == UserOfToken(token)
    {
      var payload := validateToken(token);
      if payload.None? {
        return None;
      }
      var mockUser := FindMockUserById(payload.value.sub);
      if mockUser.None? {
        return None;
      }
      r := Some(FormatUserResponse(mockUser.value));
    }

    /** `getFullUserFromToken`: the full entry, password included. */
    method GetFullUserFromToken(token: string) returns (r: Option<MockUser>)
      ensures validateToken(token).None? ==> r.None?
      ensures validateToken(token).Some? ==> r == FirstMatch(mockUsers, ById(validateToken(token).value.sub))
      ensures r.Some? ==> r.value in mockUsers && FormatUserResponse(r.value) == UserOfToken(token).value
    {
      var payload := validateToken(token);
      if payload.None? {
        return None;
      }
      r := FindMockUserById(payload.value.sub);
    }

    /** `getTokenPayload`. */
    function GetTokenPayload(token: string): (r: Option<TokenPayload>)
      ensures r.None? ==> UserOfToken(token).None?
    {
      validateToken(token)
    }

    /** `getAllMockUsers`. */
    function GetAllMockUsers(): (r: seq<UserResponse>)
      ensures |r| == |mockUsers|
      ensures forall i :: 0 <= i < |r| ==> r[i].id == mockUsers[i].id && r[i].email == mockUsers[i].email
      ensures forall i :: 0 <= i < |r| ==> WithPassword(r[i], mockUsers[i].password) == mockUsers[i]
    {
      FormatAll(mockUsers)
    }
  }

  /** A match at `i` with none before it is what `FirstMatch` finds. */
  lemma {:induction false} FirstMatchIsFirst(users: seq<MockUser>, key: Lookup, i: nat)
    requires i < |users| && Matches(users[i], key)
    requires forall j :: 0 <= j < i ==> !Matches(users[j], key)
    ensures FirstMatch(users, key) == Some(users[i])
    decreases i
  {
    if i > 0 {
      FirstMatchIsFirst(users[1..], key, i - 1);
    }
  }

  /** In the configured list the ids and the emails are unique, so every lookup
      finds the one entry with that id or email. */
  lemma MockUsersAreUnique()
    ensures forall i, j :: 0 <= i < j < |MOCK_USERS| ==> MOCK_USERS[i].id != MOCK_USERS[j].id
    ensures forall i, j :: 0 <= i < j < |MOCK_USERS| ==> MOCK_USERS[i].email != MOCK_USERS[j].email
  {
  }

  /** With the configured users: the manager logs in with the shared password, a
      wrong password or an unknown email gives nothing. */
  lemma LoginExamples(s: AuthService)
    requires s.mockUsers == MOCK_USERS
    ensures FirstMatch(s.mockUsers, ByEmail("manager@example.com")) == Some(MOCK_USERS[1])
    ensures MOCK_USERS[1].password == "password123" && MOCK_USERS[1].role == PROJECT_MANAGER
    ensures FirstMatch(s.mockUsers, ByEmail("nobody@example.com")).None?
  {
    FirstMatchIsFirst(MOCK_USERS, ByEmail("manager@example.com"), 1);
  }
}
