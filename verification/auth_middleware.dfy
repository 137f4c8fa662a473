/** The request guards of src/middleware/auth.ts as decision functions: from
    the `Authorization` header, the token service and the user table to
    either a rejection (status and error code) or the user attached to the
    request. */
module AuthMiddleware {
  import opened Base
  import opened UserSchema
  import opened TokenService

  /** `AuthenticatedUser`, the value attached to `request.user`. */
  datatype AuthUser = AuthUser(id: nat, nome: string, email: string, role: Role, active: bool)

  /** A guard either answers the request itself or lets it continue. */
  datatype Gate = Reject(status: int, code: string) | Continue(user: AuthUser)

  /** The outcome of a role check, which attaches nothing. */
  datatype RoleCheck = Denied(status: int, code: string) | Granted

  const MissingToken: string := "MISSING_TOKEN"
  const InvalidToken: string := "INVALID_TOKEN"
  const UserNotFound: string := "USER_NOT_FOUND"
  const NotAuthenticated: string := "NOT_AUTHENTICATED"
  const InsufficientPermissions: string := "INSUFFICIENT_PERMISSIONS"

  /** The user object built from the selected row, with `active` coerced. */
  function FromRow(row: UserRow): AuthUser {
    AuthUser(row.id, row.nome, row.email, row.role, row.active)
  }

  /** A token that the guards treat as present: extracted and non-empty. */
  predicate HasToken(header: Option<string>) {
    var tok := ExtractTokenFromHeader(header);
    tok.Some? && tok.value != ""
  }

  /** `WHERE id = ?` bound to `parseInt(payload.sub)`. */
  function LookupSubject(t: UserTable, sub: Sub): (r: Option<UserRow>)
    ensures r.Some? ==> SubjectId(sub) == Some(r.value.id) && r.value in t
  {
    match SubjectId(sub)
    case None => None
    case Some(id) => FindById(t, id)
  }

  /** `WHERE id = ? AND active = 1` bound to the subject. */
  function LookupActiveSubject(t: UserTable, sub: Sub): (r: Option<UserRow>)
    ensures r.Some? ==> SubjectId(sub) == Some(r.value.id) && r.value in t && r.value.active
  {
    match SubjectId(sub)
    case None => None
    case Some(id) => FindActiveById(t, id)
  }

  /** `authMiddleware`: missing token, then invalid token, then missing or
      inactive user, each a 401 with its own code; otherwise the request
      continues with the user as the table holds it. */
  function Authenticate(env: Env, header: Option<string>, t: UserTable): (g: Gate)
    ensures g.Reject? ==> g.status == 401
    ensures !HasToken(header) <==> g == Reject(401, MissingToken)
    ensures HasToken(header) && VerifyJWT(env, ExtractTokenFromHeader(header).value).None?
            <==> g == Reject(401, InvalidToken)
    ensures g.Continue? ==> HasToken(header) && VerifyJWT(env, ExtractTokenFromHeader(header).value).Some?
    ensures g.Continue? ==> var row := LookupSubject(t, VerifyJWT(env, ExtractTokenFromHeader(header).value).value.sub);
                            row.Some? && row.value.active && g.user == FromRow(row.value) && g.user.active
    ensures g == Reject(401, UserNotFound)
            <==> HasToken(header) && VerifyJWT(env, ExtractTokenFromHeader(header).value).Some?
                 && var row := LookupSubject(t, VerifyJWT(env, ExtractTokenFromHeader(header).value).value.sub);
                    row.None? || !row.value.active
    ensures (HasToken(header) && VerifyJWT(env, ExtractTokenFromHeader(header).value).Some?
             && var row := LookupSubject(t, VerifyJWT(env, ExtractTokenFromHeader(header).value).value.sub);
                row.Some? && row.value.active)
            ==> g == Continue(FromRow(LookupSubject(t, VerifyJWT(env, ExtractTokenFromHeader(header).value).value.sub).value))
  {
    var token := ExtractTokenFromHeader(header);
    if token.None? || token.value == "" then Reject(401, MissingToken)
    else match VerifyJWT(env, token.value)
      case None => Reject(401, InvalidToken)
      case Some(payload) =>
        match LookupSubject(t, payload.sub)
        case None => Reject(401, UserNotFound)
        case Some(row) =>
          if !row.active then Reject(401, UserNotFound)
          else Continue(FromRow(row))
  }

  /** Without a usable token the answer does not depend on the verifier or
      on the table: neither is consulted. */
  lemma MissingTokenConsultsNothing(env1: Env, env2: Env, header: Option<string>, t1: UserTable, t2: UserTable)
    requires !HasToken(header)
    ensures Authenticate(env1, header, t1) == Authenticate(env2, header, t2) == Reject(401, MissingToken)
  {
  }

  /** The attached user is read from the table, not from the token: two
      verifiers whose payloads agree on `sub` but disagree on every other
      claim produce the same outcome. */
  lemma AttachedUserComesFromTable(env1: Env, env2: Env, header: Option<string>, t: UserTable)
    requires HasToken(header)
    requires var tok := ExtractTokenFromHeader(header).value;
             VerifyJWT(env1, tok).Some? && VerifyJWT(env2, tok).Some?
             && VerifyJWT(env1, tok).value.sub == VerifyJWT(env2, tok).value.sub
    ensures Authenticate(env1, header, t) == Authenticate(env2, header, t)
  {
  }

  /** An account deactivated in the table is refused even with a token that
      still verifies. */
  lemma DeactivatedAccountRefused(env: Env, header: Option<string>, t: UserTable, id: int)
    requires HasToken(header)
    requires var p := VerifyJWT(env, ExtractTokenFromHeader(header).value); p.Some? && SubjectId(p.value.sub) == Some(id)
    requires forall i :: 0 <= i < |t| && t[i].id == id ==> !t[i].active
    ensures Authenticate(env, header, t) == Reject(401, UserNotFound)
  {
  }

  /** `requireRole(allowedRoles)`: no attached user is a 401, checked before
      the role; a role outside the list is a 403; otherwise the request passes. */
  function RequireRole(allowedRoles: seq<string>, user: Option<AuthUser>): (c: RoleCheck)
    ensures user.None? <==> c == Denied(401, NotAuthenticated)
    ensures user.Some? ==> (c.Granted? <==> RoleName(user.value.role) in allowedRoles)
    ensures user.Some? && c.Denied? ==> c == Denied(403, InsufficientPermissions)
  {
    match user
    case None => Denied(401, NotAuthenticated)
    case Some(u) =>
      if RoleName(u.role) !in allowedRoles then Denied(403, InsufficientPermissions)
      else Granted
  }

  /** `optionalAuthMiddleware`: never answers the request; attaches a user
      only when a token is present, verifies, and selects an active row.
      `storeDown` stands for a failing query, which the guard swallows. */
  function OptionalAuthenticate(env: Env, header: Option<string>, t: UserTable, storeDown: bool): (u: Option<AuthUser>)
    ensures u.Some? ==> HasToken(header) && VerifyJWT(env, ExtractTokenFromHeader(header).value).Some? && !storeDown
    ensures u.Some? ==> var row := LookupActiveSubject(t, VerifyJWT(env, ExtractTokenFromHeader(header).value).value.sub);
                        row.Some? && u.value == FromRow(row.value) && u.value.active
  {
    var token := ExtractTokenFromHeader(header);
    if token.None? || token.value == "" then None
    else match VerifyJWT(env, token.value)
      case None => None
      case Some(payload) =>
        if storeDown then None
        else match LookupActiveSubject(t, payload.sub)
          case None => None
          case Some(row) => Some(FromRow(row))
  }

  /** With unique ids and a working store, the optional guard attaches
      exactly the user the mandatory guard would, and nothing when the
      mandatory guard would refuse. */
  lemma OptionalAgreesWithMandatory(env: Env, header: Option<string>, t: UserTable)
    requires UniqueIds(t)
    ensures var g := Authenticate(env, header, t);
            OptionalAuthenticate(env, header, t, false) == (if g.Continue? then Some(g.user) else None)
  {
    if HasToken(header) {
      var p := VerifyJWT(env, ExtractTokenFromHeader(header).value);
      if p.Some? {
        var id := SubjectId(p.value.sub);
        if id.Some? {
          FindActiveByIdIsFilteredFindById(t, id.value);
        }
      }
    }
  }

  /** `getCurrentUser`: the attached user, `null` when there is none. */
  function GetCurrentUser(requestUser: Option<AuthUser>): (u: Option<AuthUser>)
    ensures u.Some? <==> requestUser.Some?
    ensures u.Some? ==> u.value == requestUser.value
  {
    requestUser
  }

  /** `hasRole`. */
  function HasRole(requestUser: Option<AuthUser>, role: string): (b: bool)
    ensures b <==> requestUser.Some? && RoleName(requestUser.value.role) == role
  {
    var user := GetCurrentUser(requestUser);
    user.Some? && RoleName(user.value.role) == role
  }

  /** `hasAnyRole`. */
  function HasAnyRole(requestUser: Option<AuthUser>, roles: seq<string>): (b: bool)
    ensures b <==> requestUser.Some? && RoleName(requestUser.value.role) in roles
    ensures roles == [] ==> !b
  {
    var user := GetCurrentUser(requestUser);
    user.Some? && RoleName(user.value.role) in roles
  }

  /** Checking one role is checking the one-element list; a list grants
      exactly when one of its members does. */
  lemma HasRoleIsSingletonHasAnyRole(requestUser: Option<AuthUser>, role: string, roles: seq<string>)
    ensures HasRole(requestUser, role) == HasAnyRole(requestUser, [role])
    ensures HasAnyRole(requestUser, roles) <==> exists i :: 0 <= i < |roles| && HasRole(requestUser, roles[i])
  {
  }

  /** The role guard grants exactly when `hasAnyRole` holds for its list. */
  lemma RequireRoleMatchesHasAnyRole(allowedRoles: seq<string>, user: Option<AuthUser>)
    ensures RequireRole(allowedRoles, user).Granted? <==> HasAnyRole(user, allowedRoles)
  {
  }
}
