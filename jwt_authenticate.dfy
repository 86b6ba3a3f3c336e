/** The authentication middleware: the bearer token is taken from the
    `Authorization` header with the pattern `/Bearer\s+(.*)$/i`, resolved to a
    user, and the user's identity is attached to the request. */
module JwtMiddleware {
  import opened Common
  import opened AuthServices

  /** What the middleware attaches to the request. */
  datatype AuthValue =
    | UserAttr(user: UserResponse)
    | PayloadAttr(payload: Option<TokenPayload>)
    | IntAttr(n: int)
    | StringAttr(s: string)

  /** A 401 error response, or the request handed on to the next handler. */
  datatype Response = Unauthorized(status: int, code: string, message: string) | Forwarded

  /** `\s` of the pattern: space, tab, line feed, vertical tab, form feed,
      carriage return. */
  predicate IsSpace(c: char) {
    c == ' ' || c == '\t' || c == '\n' || c as int == 11 || c as int == 12 || c == '\r'
  }

  /** ASCII lower case, what the `i` flag compares by. */
  function LowerAscii(c: char): (r: char)
    ensures 'A' <= c <= 'Z' ==> r as int == c as int + 32
    ensures !('A' <= c <= 'Z') ==> r == c
  {
    if 'A' <= c <= 'Z' then (c as int + 32) as char else c
  }

  /** `Bearer`, in any case, starts at `i`. */
  predicate BearerAt(h: string, i: nat) {
    i + 6 <= |h| && forall k :: 0 <= k < 6 ==> LowerAscii(h[i + k]) == "bearer"[k]
  }

  /** `Bearer\s`: the word followed by at least one white-space character. */
  predicate BearerSpaceAt(h: string, i: nat) {
    BearerAt(h, i) && i + 6 < |h| && IsSpace(h[i + 6])
  }

  /** The end of the white-space run from `p` (greedy `\s+`). */
  function SpaceEnd(h: string, p: nat): (r: nat)
    requires p <= |h|
    ensures p <= r <= |h|
    ensures forall k :: p <= k < r ==> IsSpace(h[k])
    ensures r == |h| || !IsSpace(h[r])
    decreases |h| - p
  {
    if p < |h| && IsSpace(h[p]) then SpaceEnd(h, p + 1) else p
  }

  /** The first line feed from `p`, or the end (greedy `.*`: a dot does not match
      a line feed). */
  function LineEnd(h: string, p: nat): (r: nat)
    requires p <= |h|
    ensures p <= r <= |h|
    ensures forall k :: p <= k < r ==> h[k] != '\n'
    ensures r == |h| || h[r] == '\n'
    decreases |h| - p
  {
    if p < |h| && h[p] != '\n' then LineEnd(h, p + 1) else p
  }

  /** The capture when the match starts at `i`: after the longest white-space run
      the rest of the line, which `$` accepts only at the end of the header or
      before a line feed that ends it. Any shorter white-space run or shorter
      capture puts `$` before a character that is not a final line feed, so no
      other split of the same start matches. */
  function MatchAt(h: string, i: nat): (r: Option<string>)
    requires i <= |h|
    ensures r.Some? ==> BearerSpaceAt(h, i)
    ensures r.Some? ==> '\n' !in r.value && (r.value == [] || !IsSpace(r.value[0]))
  {
    if !BearerSpaceAt(h, i) then None
    else
      var p := SpaceEnd(h, i + 6);
      var q := LineEnd(h, p);
      if q == |h| || q == |h| - 1 then Some(h[p..q]) else None
  }

  /** The leftmost start from `i` on at which the pattern matches. */
  function MatchFrom(h: string, i: nat): (r: Option<string>)
    requires i <= |h|
    ensures r.Some? ==> '\n' !in r.value && (r.value == [] || !IsSpace(r.value[0]))
    decreases |h| - i
  {
    if i == |h| then None
    else if MatchAt(h, i).Some? then MatchAt(h, i)
    else MatchFrom(h, i + 1)
  }

  /** `extractToken`: nothing for an absent header and for the falsy headers ""
      and "0"; otherwise the capture of the leftmost match, if there is one. */
  function ExtractToken(header: Option<string>): (r: Option<string>)
    ensures !PhpTruthyOpt(header) ==> r.None?
    ensures r.Some? ==> '\n' !in r.value
  {
    if !PhpTruthyOpt(header) then None else MatchFrom(header.value, 0)
  }

  /** `MatchFrom` is the capture at the leftmost start that matches. */
  lemma {:induction false} MatchFromIsLeftmost(h: string, i: nat, j: nat)
    requires i <= j < |h| && MatchAt(h, j).Some?
    requires forall k :: i <= k < j ==> MatchAt(h, k).None?
    ensures MatchFrom(h, i) == MatchAt(h, j)
    decreases j - i
  {
    if i < j {
      MatchFromIsLeftmost(h, i + 1, j);
    }
  }

  /** `MatchFrom` finds nothing exactly when no start from `i` on matches. */
  lemma {:induction false} MatchFromNoneIff(h: string, i: nat)
    requires i <= |h|
    ensures MatchFrom(h, i).None? <==> forall j :: i <= j < |h| ==> MatchAt(h, j).None?
    decreases |h| - i
  {
    if i < |h| {
      MatchFromNoneIff(h, i + 1);
    }
  }

  /** On a one-line header the token is everything after the white space that
      follows the leftmost `Bearer` that has white space after it. */
  lemma {:induction false} SingleLineTokenIsRest(h: string, i: nat, j: nat)
    requires '\n' !in h && i <= j < |h| && BearerSpaceAt(h, j)
    requires forall k :: i <= k < j ==> !BearerSpaceAt(h, k)
    ensures MatchFrom(h, i) == Some(h[SpaceEnd(h, j + 6)..])
    decreases j - i
  {
    SingleLineMatchAt(h, j);
    assert forall k :: i <= k < j ==> MatchAt(h, k).None?;
    MatchFromIsLeftmost(h, i, j);
  }

  /** On a one-line header a `Bearer` followed by white space always matches, and
      the capture runs to the end. */
  lemma SingleLineMatchAt(h: string, i: nat)
    requires '\n' !in h && i < |h| && BearerSpaceAt(h, i)
    ensures MatchAt(h, i) == Some(h[SpaceEnd(h, i + 6)..])
  {
    var p := SpaceEnd(h, i + 6);
    NoLineFeedMeansLineEnd(h, p);
    assert LineEnd(h, p) == |h|;
    assert h[p..|h|] == h[p..];
  }

  lemma {:induction false} NoLineFeedMeansLineEnd(h: string, p: nat)
    requires '\n' !in h && p <= |h|
    ensures LineEnd(h, p) == |h|
    decreases |h| - p
  {
    if p < |h| {
      assert h[p] in h;
      NoLineFeedMeansLineEnd(h, p + 1);
    }
  }

  /** A header with no `Bearer` followed by white space yields no token. */
  lemma NoBearerNoToken(h: string)
    requires forall i :: 0 <= i < |h| ==> !BearerSpaceAt(h, i)
    ensures ExtractToken(Some(h)).None?
  {
    if PhpTruthyOpt(Some(h)) {
      MatchFromNoneIff(h, 0);
    }
  }

  /** The usual header, and one with more white space in lower case. */
  lemma ExtractUsualHeaders()
    ensures ExtractToken(Some("Bearer abc")) == Some("abc")
    ensures ExtractToken(Some("bearer \t abc")) == Some("abc")
  {
    assert SpaceEnd("Bearer abc", 6) == 7;
    SingleLineTokenIsRest("Bearer abc", 0, 0);
    assert SpaceEnd("bearer \t abc", 6) == 9;
    SingleLineTokenIsRest("bearer \t abc", 0, 0);
  }

  /** Another scheme, and "Bearer" run into the token without white space,
      give no token. */
  lemma ExtractOtherSchemes()
    ensures ExtractToken(Some("Basic abc")).None?
    ensures ExtractToken(Some("Bearerabc")).None?
  {
    var basic := "Basic abc";
    forall i | 0 <= i < |basic|
      ensures !BearerSpaceAt(basic, i)
    {
      if i == 0 {
        assert LowerAscii(basic[0 + 1]) != "bearer"[1];
      } else if i <= 3 {
        assert basic[i] in {'a', 's', 'i'};
        assert LowerAscii(basic[i + 0]) != "bearer"[0];
      }
    }
    NoBearerNoToken(basic);
    var joined := "Bearerabc";
    forall i | 0 <= i < |joined|
      ensures !BearerSpaceAt(joined, i)
    {
      if 1 <= i <= 3 {
        assert joined[i] in {'e', 'a', 'r'};
        assert LowerAscii(joined[i + 0]) != "bearer"[0];
      }
    }
    NoBearerNoToken(joined);
  }

  /** A single trailing line feed is dropped from the token. */
  lemma ExtractTrailingLineFeed()
    ensures ExtractToken(Some("Bearer abc\n")) == Some("abc")
  {
    var h := "Bearer abc\n";
    assert SpaceEnd(h, 6) == 7;
    assert LineEnd(h, 10) == 10;
    assert LineEnd(h, 7) == 10;
    assert h[7..10] == "abc";
    assert MatchAt(h, 0) == Some("abc");
  }

  /** A line feed inside the token leaves the header without a token. */
  lemma ExtractInnerLineFeed()
    ensures ExtractToken(Some("Bearer a\nb")).None?
  {
    assert SpaceEnd("Bearer a\nb", 6) == 7;
    assert LineEnd("Bearer a\nb", 7) == 8;
    assert MatchAt("Bearer a\nb", 0).None?;
    forall i | 1 <= i < 10
      ensures MatchAt("Bearer a\nb", i).None?
    {
      var h := "Bearer a\nb";
      if i <= 4 {
        assert h[i] in {'e', 'a', 'r'};
        assert LowerAscii(h[i + 0]) != "bearer"[0];
      } else {
        assert !BearerAt(h, i);
      }
    }
    MatchFromNoneIff("Bearer a\nb", 0);
  }

  /** `Bearer` and white space alone give the empty token, and `Bearer 0` the
      token "0"; both are falsy, so `handle` treats them as missing. */
  lemma ExtractFalsyTokens()
    ensures ExtractToken(Some("Bearer ")) == Some("")
    ensures !PhpTruthyOpt(ExtractToken(Some("Bearer ")))
    ensures ExtractToken(Some("Bearer 0")) == Some("0")
    ensures !PhpTruthyOpt(ExtractToken(Some("Bearer 0")))
  {
    assert SpaceEnd("Bearer ", 6) == 7;
    assert SpaceEnd("Bearer 0", 6) == 7;
    SingleLineTokenIsRest("Bearer 0", 0, 0);
  }

  /** The request as the middleware sees it: the `Authorization` header and the
      attribute bag it writes. */
  class Request {
    const authorization: Option<string>
    var attributes: map<string, AuthValue>

    constructor (authorization: Option<string>, attributes: map<string, AuthValue>)
      ensures this.authorization == authorization && this.attributes == attributes
    {
      this.authorization := authorization;
      this.attributes := attributes;
    }
  }

  /** The five attributes `handle` sets for an authenticated user. */
  function WithAuth(attributes: map<string, AuthValue>, user: UserResponse, payload: Option<TokenPayload>)
    : (r: map<string, AuthValue>)
    ensures r.Keys == attributes.Keys + {"auth_user", "auth_token_payload", "auth_user_id", "auth_org_id", "auth_role"}
    ensures r["auth_user"] == UserAttr(user) && r["auth_token_payload"] == PayloadAttr(payload)
    ensures r["auth_user_id"] == IntAttr(user.id) && r["auth_org_id"] == IntAttr(user.orgId)
    ensures r["auth_role"] == StringAttr(user.role)
  {
    attributes["auth_user" := UserAttr(user)]["auth_token_payload" := PayloadAttr(payload)]
      ["auth_user_id" := IntAttr(user.id)]["auth_org_id" := IntAttr(user.orgId)]["auth_role" := StringAttr(user.role)]
  }

  class JwtAuthenticate {
    const authService: AuthService

    constructor (authService: AuthService)
      ensures this.authService == authService
    {
      this.authService := authService;
    }

    /** `handle`: a request without a truthy token (no header, no match, or the
        token "" or "0") is refused with "No token provided"; a token that does not
        resolve to a mock user with "Invalid or expired token"; otherwise the
        user's identity is attached and the request is handed on. */
    method Handle(request: Request) returns (response: Response)
      modifies request
      ensures var token := ExtractToken(request.authorization);
        !PhpTruthyOpt(token) ==> response == Unauthorized(401, "UNAUTHORIZED", "No token provided")
      ensures var token := ExtractToken(request.authorization);
        PhpTruthyOpt(token) && authService.UserOfToken(token.value).None? ==>
          response == Unauthorized(401, "UNAUTHORIZED", "Invalid or expired token")
      ensures var token := ExtractToken(request.authorization);
        response.Forwarded? <==> PhpTruthyOpt(token) && authService.UserOfToken(token.value).Some?
      ensures response.Unauthorized? ==> request.attributes == old(request.attributes)
      ensures var token := ExtractToken(request.authorization);
        response.Forwarded? ==>
          request.attributes == WithAuth(old(request.attributes), authService.UserOfToken(token.value).value,
                                         authService.validateToken(token.value))
    {
      var token := ExtractToken(request.authorization);
      if !PhpTruthyOpt(token) {
        return Unauthorized(401, "UNAUTHORIZED", "No token provided");
      }
      var user := authService.GetUserFromToken(token.value);
      if user.None? {
        return Unauthorized(401, "UNAUTHORIZED", "Invalid or expired token");
      }
      var payload := authService.GetTokenPayload(token.value);
      request.attributes := WithAuth(request.attributes, user.value, payload);
      response := Forwarded;
    }
  }

  /** A forwarded request carries the id, organization and role of the user the
      token names, so every later guard reads a configured user's identity. */
  lemma ForwardedIdentityIsTokenSubject(s: AuthService, token: string)
    requires s.UserOfToken(token).Some?
    ensures s.validateToken(token).Some?
    ensures exists i :: 0 <= i < |s.mockUsers| && s.mockUsers[i].id == s.validateToken(token).value.sub
                        && s.UserOfToken(token).value == FormatUserResponse(s.mockUsers[i])
  {
    var u := FirstMatch(s.mockUsers, ById(s.validateToken(token).value.sub));
    assert u.Some?;
  }
}
