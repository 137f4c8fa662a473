/** The authentication endpoints (src/endpoints/auth/login.ts, register.ts,
    refresh.ts, me.ts) as functions from the request body or header, the
    token service and the user table to the reply. Each handler's checks are
    made in the source's order; the first failing one decides the reply. */
module AuthHandlers {
  import opened Base
  import opened UserSchema
  import opened TokenService
  import opened AuthMiddleware

  /** A JSON reply: an error with its status and message, tokens issued with
      the user object, or the user object alone. */
  datatype Reply =
    | Failure(status: int, message: string)
    | Issued(status: int, user: UserView, token: string, refreshToken: string)
    | Profile(user: UserView)

  /** What a handler sees besides its input: the token service, the schema
      library's e-mail check, the clock in milliseconds, and whether the store
      throws on the first query (`storeDown`). */
  datatype Context = Context(env: Env, isEmail: string -> bool, nowMs: int, storeDown: bool)

  const InvalidCredentials: string := "Credenciais inválidas"
  const InactiveUser: string := "Usuário inativo. Entre em contato com o administrador."
  const InvalidData: string := "Dados inválidos"
  const InternalError: string := "Erro interno do servidor"
  const EmailTaken: string := "Email já está em uso"
  const InvalidRefreshToken: string := "Refresh token inválido ou expirado"
  const UserMissing: string := "Usuário não encontrado ou inativo"
  const NoToken: string := "Token de acesso não fornecido"
  const BadToken: string := "Token inválido ou expirado"

  /** The access and refresh tokens issued for a row. */
  function IssueFor(ctx: Context, status: int, row: UserRow, sub: Sub): (r: Reply)
    ensures r.Issued? && r.status == status && r.user == ToView(row)
    ensures r.token == ctx.env.sign(AccessPayload(AccessFields(sub, row.email, row.role), ctx.nowMs, AccessTtl),
                                    ctx.env.jwtSecret)
    ensures r.refreshToken == ctx.env.sign(RefreshPayload(row.id, ctx.nowMs), ctx.env.jwtSecret)
  {
    Issued(status, ToView(row),
           GenerateJWT(ctx.env, AccessFields(sub, row.email, row.role), ctx.nowMs, AccessTtl),
           GenerateRefreshToken(ctx.env, row.id, ctx.nowMs))
  }

  // ---------------------------------------------------------------------
  // POST /auth/login
  // ---------------------------------------------------------------------

  /** `AuthLogin.handle`. */
  function Login(ctx: Context, body: LoginBody, t: UserTable): (r: Reply)
    ensures ValidateLogin(ctx.isEmail, body).Invalid? <==> r == Failure(400, InvalidData)
    ensures ValidateLogin(ctx.isEmail, body).Valid? && ctx.storeDown <==> r == Failure(500, InternalError)
    ensures r == Failure(403, InactiveUser)
            <==> ValidateLogin(ctx.isEmail, body).Valid? && !ctx.storeDown
                 && var row := FindByEmail(t, body.email.value); row.Some? && !row.value.active
    ensures r == Failure(401, InvalidCredentials)
            <==> ValidateLogin(ctx.isEmail, body).Valid? && !ctx.storeDown
                 && var row := FindByEmail(t, body.email.value);
                    row.None? || (row.value.active && !VerifyPassword(ctx.env, body.senha.value, row.value.senha))
    ensures r.Issued? ==> var row := FindByEmail(t, body.email.value);
                          && row.Some? && row.value.active
                          && VerifyPassword(ctx.env, body.senha.value, row.value.senha)
                          && r == IssueFor(ctx, 200, row.value, NumSub(row.value.id))
    ensures (ValidateLogin(ctx.isEmail, body).Valid? && !ctx.storeDown
             && var row := FindByEmail(t, body.email.value);
                row.Some? && row.value.active && VerifyPassword(ctx.env, body.senha.value, row.value.senha))
            ==> r == IssueFor(ctx, 200, FindByEmail(t, body.email.value).value,
                              NumSub(FindByEmail(t, body.email.value).value.id))
    ensures r.Failure? || r.Issued?
  {
    match ValidateLogin(ctx.isEmail, body)
    case Invalid(_) => Failure(400, InvalidData)
    case Valid(cred) =>
      if ctx.storeDown then Failure(500, InternalError)
      else match FindByEmail(t, cred.email)
        case None => Failure(401, InvalidCredentials)
        case Some(row) =>
          if !row.active then Failure(403, InactiveUser)
          else if !VerifyPassword(ctx.env, cred.senha, row.senha) then Failure(401, InvalidCredentials)
          else IssueFor(ctx, 200, row, NumSub(row.id))
  }

  /** An inactive account is refused before the password is looked at: every
      password gets the same 403. */
  lemma InactiveRefusedWhateverPassword(ctx: Context, email: string, senha1: string, senha2: string, t: UserTable)
    requires !ctx.storeDown && ctx.isEmail(email) && |senha1| >= 1 && |senha2| >= 1
    requires FindByEmail(t, email).Some? && !FindByEmail(t, email).value.active
    ensures Login(ctx, LoginBody(Some(email), Some(senha1)), t)
            == Login(ctx, LoginBody(Some(email), Some(senha2)), t)
            == Failure(403, InactiveUser)
  {
  }

  /** An unknown e-mail and a wrong password get the very same reply, so the
      reply does not reveal which accounts exist. */
  lemma UnknownEmailLooksLikeWrongPassword(ctx: Context, unknown: LoginBody, wrong: LoginBody, t: UserTable)
    requires ValidateLogin(ctx.isEmail, unknown).Valid? && ValidateLogin(ctx.isEmail, wrong).Valid?
    requires !ctx.storeDown
    requires FindByEmail(t, unknown.email.value).None?
    requires var row := FindByEmail(t, wrong.email.value);
             row.Some? && row.value.active && !VerifyPassword(ctx.env, wrong.senha.value, row.value.senha)
    ensures Login(ctx, unknown, t) == Login(ctx, wrong, t)
  {
  }

  /** The issued access token carries the row's id, e-mail and role, no
      `type` claim and a 24-hour lifetime; the refresh token names the same id. */
  lemma LoginTokenClaims(ctx: Context, body: LoginBody, t: UserTable)
    requires DecodesOwnSignatures(ctx.env)
    requires Login(ctx, body, t).Issued?
    ensures var r := Login(ctx, body, t);
            var p := ctx.env.decode(r.token);
            && p.Some? && p.value.sub == NumSub(r.user.id) && p.value.email == Some(r.user.email)
            && p.value.role == Some(RoleName(r.user.role)) && p.value.kind.None?
            && p.value.exp - p.value.iat == AccessTtl
            && ctx.env.decode(r.refreshToken) == Some(RefreshPayload(r.user.id, ctx.nowMs))
  {
    var r := Login(ctx, body, t);
    var row := FindByEmail(t, body.email.value).value;
    var p := AccessPayload(AccessFields(NumSub(row.id), row.email, row.role), ctx.nowMs, AccessTtl);
    assert ctx.env.decode(ctx.env.sign(p, ctx.env.jwtSecret)) == Some(p);
    var q := RefreshPayload(row.id, ctx.nowMs);
    assert ctx.env.decode(ctx.env.sign(q, ctx.env.jwtSecret)) == Some(q);
  }

  // ---------------------------------------------------------------------
  // POST /auth/register
  // ---------------------------------------------------------------------

  /** The reply and the table after the request. */
  datatype Registered = Registered(reply: Reply, table: UserTable)

  /** The row the INSERT adds: the validated fields, the password digest,
      `active = 1`, both timestamps from the store's clock. */
  function NewRow(ctx: Context, reg: Registration, rowId: nat, createdAt: string): (row: UserRow)
    ensures row.id == rowId && row.nome == reg.nome && row.email == reg.email && row.role == reg.role
    ensures row.senha == HashPassword(ctx.env, reg.senha) && row.active
  {
    UserRow(rowId, reg.nome, reg.email, HashPassword(ctx.env, reg.senha), reg.role, true, createdAt, createdAt)
  }

  /** `AuthRegister.handle`. `insertedId` is the store's answer to the INSERT:
      the new row id, or `None` when the statement reports failure.
      `rowRead` is whether the SELECT by that id then returns a row; when it
      does not, the reply is 500 but the inserted row stays.
      `createdAt` is the store's `datetime('now')`. */
  function Register(ctx: Context, body: RegisterBody, t: UserTable, insertedId: Option<nat>, rowRead: bool,
                    createdAt: string)
    : (r: Registered)
    ensures ValidateRegister(ctx.isEmail, body).Invalid? <==> r.reply == Failure(400, InvalidData)
    ensures r.reply == Failure(409, EmailTaken)
            <==> ValidateRegister(ctx.isEmail, body).Valid? && !ctx.storeDown
                 && FindByEmail(t, body.email.value).Some?
    ensures r.reply == Failure(500, InternalError)
            <==> ValidateRegister(ctx.isEmail, body).Valid? && (ctx.storeDown
                 || (FindByEmail(t, body.email.value).None? && (insertedId.None? || !rowRead)))
    ensures r.reply.Failure? && !(ValidateRegister(ctx.isEmail, body).Valid? && !ctx.storeDown
                                  && FindByEmail(t, body.email.value).None? && insertedId.Some?)
            ==> r.table == t
    ensures ValidateRegister(ctx.isEmail, body).Valid? && !ctx.storeDown
            && FindByEmail(t, body.email.value).None? && insertedId.Some? && !rowRead
            ==> r.reply == Failure(500, InternalError)
                && r.table == t + [NewRow(ctx, ValidateRegister(ctx.isEmail, body).value, insertedId.value, createdAt)]
    ensures r.reply.Issued? ==> var reg := ValidateRegister(ctx.isEmail, body).value;
                                && reg.email !in (set i | 0 <= i < |t| :: t[i].email)
                                && insertedId.Some? && rowRead
                                && r.table == t + [NewRow(ctx, reg, insertedId.value, createdAt)]
                                && FindById(r.table, insertedId.value).Some?
                                && var row := FindById(r.table, insertedId.value).value;
                                   r.reply == IssueFor(ctx, 201, row, NumSub(row.id))
    ensures ValidateRegister(ctx.isEmail, body).Valid? && !ctx.storeDown
            && FindByEmail(t, body.email.value).None? && insertedId.Some? && rowRead
            ==> r.reply.Issued? && r.reply.status == 201
                && r.table == t + [NewRow(ctx, ValidateRegister(ctx.isEmail, body).value, insertedId.value, createdAt)]
    ensures r.reply.Failure? || r.reply.Issued?
  {
    match ValidateRegister(ctx.isEmail, body)
    case Invalid(_) => Registered(Failure(400, InvalidData), t)
    case Valid(reg) =>
      if ctx.storeDown then Registered(Failure(500, InternalError), t)
      else if FindByEmail(t, reg.email).Some? then Registered(Failure(409, EmailTaken), t)
      else match insertedId
        case None => Registered(Failure(500, InternalError), t)
        case Some(rowId) =>
          var t' := t + [NewRow(ctx, reg, rowId, createdAt)];
          assert t'[|t|].id == rowId;
          if !rowRead then Registered(Failure(500, InternalError), t')
          else match FindById(t', rowId)
          case Some(row) => Registered(IssueFor(ctx, 201, row, NumSub(row.id)), t')
  }

  /** With a fresh row id, the reply describes the row just inserted, whose
      stored password is the digest and which is active. */
  lemma RegisterReturnsInsertedRow(ctx: Context, body: RegisterBody, t: UserTable, rowId: nat, createdAt: string)
    requires forall i :: 0 <= i < |t| ==> t[i].id != rowId
    requires Register(ctx, body, t, Some(rowId), true, createdAt).reply.Issued?
    ensures var r := Register(ctx, body, t, Some(rowId), true, createdAt);
            var reg := ValidateRegister(ctx.isEmail, body).value;
            && r.reply.user == ToView(NewRow(ctx, reg, rowId, createdAt))
            && r.reply.user.active && r.reply.user.id == rowId && r.reply.user.role == reg.role
            && r.table[|t|].senha == HashPassword(ctx.env, body.senha.value)
  {
    var r := Register(ctx, body, t, Some(rowId), true, createdAt);
    var row := FindById(r.table, rowId).value;
    assert row == r.table[|t|];
  }

  /** Registering and then logging in with the same e-mail and password
      succeeds and yields the same user and, at the same instant, the same tokens. */
  lemma RegisterThenLogin(ctx: Context, body: RegisterBody, t: UserTable, rowId: nat, createdAt: string)
    requires forall i :: 0 <= i < |t| ==> t[i].id != rowId
    requires Register(ctx, body, t, Some(rowId), true, createdAt).reply.Issued?
    ensures var r := Register(ctx, body, t, Some(rowId), true, createdAt);
            Login(ctx, LoginBody(body.email, body.senha), r.table) == r.reply.(status := 200)
  {
    var r := Register(ctx, body, t, Some(rowId), true, createdAt);
    var reg := ValidateRegister(ctx.isEmail, body).value;
    var row := NewRow(ctx, reg, rowId, createdAt);
    RegisterReturnsInsertedRow(ctx, body, t, rowId, createdAt);
    RegisteredCredentialsPassLogin(ctx.isEmail, body);
    assert FindById(r.table, rowId) == Some(row);
    assert forall i :: 0 <= i < |t| ==> r.table[i].email != reg.email by {
      forall i | 0 <= i < |t| ensures r.table[i].email != reg.email {
        assert t[i].email in (set j | 0 <= j < |t| :: t[j].email);
      }
    }
    assert FindByEmail(r.table, reg.email) == Some(row);
    VerifyOwnHash(ctx.env, reg.senha);
  }

  // ---------------------------------------------------------------------
  // POST /auth/refresh
  // ---------------------------------------------------------------------

  datatype RefreshBody = RefreshBody(refreshToken: Option<string>)

  /** `AuthRefresh.handle`. */
  function Refresh(ctx: Context, body: RefreshBody, t: UserTable): (r: Reply)
    ensures body.refreshToken.None? || body.refreshToken.value == "" <==> r == Failure(400, InvalidData)
    ensures r == Failure(401, InvalidRefreshToken)
            <==> body.refreshToken.Some? && body.refreshToken.value != ""
                 && var sub := VerifyRefreshToken(ctx.env, body.refreshToken.value);
                    sub.None? || !Truthy(sub.value)
    ensures r.Issued? ==> var sub := VerifyRefreshToken(ctx.env, body.refreshToken.value);
                          && sub.Some? && Truthy(sub.value) && !ctx.storeDown
                          && var row := LookupActiveSubject(t, sub.value);
                             && row.Some? && row.value.active
                             && r == IssueFor(ctx, 200, row.value, StrSub(NatToString(row.value.id)))
    ensures r == Failure(500, InternalError)
            <==> body.refreshToken.Some? && body.refreshToken.value != ""
                 && var sub := VerifyRefreshToken(ctx.env, body.refreshToken.value);
                    sub.Some? && Truthy(sub.value) && ctx.storeDown
    ensures r == Failure(401, UserMissing)
            <==> body.refreshToken.Some? && body.refreshToken.value != ""
                 && var sub := VerifyRefreshToken(ctx.env, body.refreshToken.value);
                    sub.Some? && Truthy(sub.value) && !ctx.storeDown && LookupActiveSubject(t, sub.value).None?
    ensures (body.refreshToken.Some? && body.refreshToken.value != ""
             && var sub := VerifyRefreshToken(ctx.env, body.refreshToken.value);
                sub.Some? && Truthy(sub.value) && !ctx.storeDown && LookupActiveSubject(t, sub.value).Some?)
            ==> var row := LookupActiveSubject(t, VerifyRefreshToken(ctx.env, body.refreshToken.value).value).value;
                r == IssueFor(ctx, 200, row, StrSub(NatToString(row.id)))
    ensures r.Failure? || r.Issued?
  {
    match body.refreshToken
    case None => Failure(400, InvalidData)
    case Some(token) =>
      if token == "" then Failure(400, InvalidData)
      else match VerifyRefreshToken(ctx.env, token)
        case None => Failure(401, InvalidRefreshToken)
        case Some(sub) =>
          if !Truthy(sub) then Failure(401, InvalidRefreshToken)
          else if ctx.storeDown then Failure(500, InternalError)
          else match LookupActiveSubject(t, sub)
            case None => Failure(401, UserMissing)
            case Some(row) => IssueFor(ctx, 200, row, StrSub(NatToString(row.id)))
  }

  /** A token the refresh verifier refuses never reaches the table: the reply
      is the same whatever the table holds. */
  lemma RefusedRefreshConsultsNoTable(ctx: Context, body: RefreshBody, t1: UserTable, t2: UserTable)
    requires body.refreshToken.Some? && body.refreshToken.value != ""
    requires VerifyRefreshToken(ctx.env, body.refreshToken.value).None?
    ensures Refresh(ctx, body, t1) == Refresh(ctx, body, t2) == Failure(401, InvalidRefreshToken)
  {
  }

  // ---------------------------------------------------------------------
  // GET /auth/me
  // ---------------------------------------------------------------------

  /** `AuthMe.handle`. The claim `sub` is bound to the SELECT as it is; a
      payload without one binds `undefined`, which the store refuses, so that
      request ends in the 500 of the handler's catch. */
  function Me(ctx: Context, header: Option<string>, t: UserTable): (r: Reply)
    ensures !HasToken(header) <==> r == Failure(401, NoToken)
    ensures HasToken(header) && VerifyJWT(ctx.env, ExtractTokenFromHeader(header).value).None?
            <==> r == Failure(401, BadToken)
    ensures r.Profile? ==> var p := VerifyJWT(ctx.env, ExtractTokenFromHeader(header).value);
                           && HasToken(header) && p.Some? && !ctx.storeDown && !p.value.sub.NoSub?
                           && var row := LookupActiveSubject(t, p.value.sub);
                              row.Some? && r.user == ToView(row.value) && r.user.active
    ensures r == Failure(401, UserMissing)
            <==> HasToken(header) && !ctx.storeDown
                 && var p := VerifyJWT(ctx.env, ExtractTokenFromHeader(header).value);
                    p.Some? && !p.value.sub.NoSub? && LookupActiveSubject(t, p.value.sub).None?
    ensures r == Failure(500, InternalError)
            <==> HasToken(header)
                 && var p := VerifyJWT(ctx.env, ExtractTokenFromHeader(header).value);
                    p.Some? && (ctx.storeDown || p.value.sub.NoSub?)
    ensures (HasToken(header) && !ctx.storeDown
             && var p := VerifyJWT(ctx.env, ExtractTokenFromHeader(header).value);
                p.Some? && LookupActiveSubject(t, p.value.sub).Some?)
            ==> r == Profile(ToView(LookupActiveSubject(t, VerifyJWT(ctx.env, ExtractTokenFromHeader(header).value).value.sub).value))
    ensures r.Failure? || r.Profile?
  {
    var token := ExtractTokenFromHeader(header);
    if token.None? || token.value == "" then Failure(401, NoToken)
    else match VerifyJWT(ctx.env, token.value)
      case None => Failure(401, BadToken)
      case Some(payload) =>
        if ctx.storeDown || payload.sub.NoSub? then Failure(500, InternalError)
        else match LookupActiveSubject(t, payload.sub)
          case None => Failure(401, UserMissing)
          case Some(row) => Profile(ToView(row))
  }

  /** A token issued at login, presented as a bearer token while the library
      still accepts it, returns the same user from `/me`. */
  lemma LoginThenMe(ctx: Context, body: LoginBody, t: UserTable)
    requires UniqueIds(t) && DecodesOwnSignatures(ctx.env)
    requires Login(ctx, body, t).Issued?
    requires var tok := Login(ctx, body, t).token; tok != "" && ctx.env.verify(tok, ctx.env.jwtSecret) == Some(true)
    ensures Me(ctx, Some(BearerPrefix + Login(ctx, body, t).token), t) == Profile(Login(ctx, body, t).user)
  {
    var r := Login(ctx, body, t);
    var row := FindByEmail(t, body.email.value).value;
    ExtractTokenRoundTrip(r.token);
    LoginTokenClaims(ctx, body, t);
    FindActiveByIdIsFilteredFindById(t, row.id);
    var i :| 0 <= i < |t| && t[i] == row;
    assert FindById(t, row.id) == Some(row);
  }

  /** The access token minted by a refresh names the user by the decimal
      string of the id; presented to `/me` it selects the same row. */
  lemma RefreshThenMe(ctx: Context, body: RefreshBody, t: UserTable)
    requires UniqueIds(t) && DecodesOwnSignatures(ctx.env)
    requires Refresh(ctx, body, t).Issued?
    requires var tok := Refresh(ctx, body, t).token; tok != "" && ctx.env.verify(tok, ctx.env.jwtSecret) == Some(true)
    ensures Me(ctx, Some(BearerPrefix + Refresh(ctx, body, t).token), t) == Profile(Refresh(ctx, body, t).user)
  {
    var r := Refresh(ctx, body, t);
    var sub := VerifyRefreshToken(ctx.env, body.refreshToken.value).value;
    var row := LookupActiveSubject(t, sub).value;
    var p := AccessPayload(AccessFields(StrSub(NatToString(row.id)), row.email, row.role), ctx.nowMs, AccessTtl);
    assert ctx.env.decode(r.token) == Some(p);
    ExtractTokenRoundTrip(r.token);
    SubjectIdOfRenderedId(row.id);
    FindActiveByIdIsFilteredFindById(t, row.id);
    var i :| 0 <= i < |t| && t[i] == row;
    assert FindById(t, row.id) == Some(row);
  }

  /** After the account is deactivated, a token that still verifies gets a 401
      from `/me`. */
  lemma MeRefusesDeactivated(ctx: Context, header: Option<string>, t: UserTable, id: int)
    requires HasToken(header) && !ctx.storeDown
    requires var p := VerifyJWT(ctx.env, ExtractTokenFromHeader(header).value);
             p.Some? && SubjectId(p.value.sub) == Some(id)
    requires forall i :: 0 <= i < |t| && t[i].id == id ==> !t[i].active
    ensures Me(ctx, header, t) == Failure(401, UserMissing)
  {
  }
}
