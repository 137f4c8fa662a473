/** The user record of the accounts table, the response shape without the
    password digest, the lookups the handlers run against the table, and the
    field rules the registration and login bodies are validated with
    (src/endpoints/auth/base.ts). */
module UserSchema {
  import opened Base

  /** The role enumeration `admin | user | viewer`. */
  datatype Role = Admin | User | Viewer

  function RoleName(r: Role): (s: string)
    ensures ParseRole(s) == Some(r)
  {
    match r
    case Admin => "admin"
    case User => "user"
    case Viewer => "viewer"
  }

  /** Reads a role name; only the three enumeration members are accepted. */
  function ParseRole(s: string): (r: Option<Role>)
    ensures r.Some? <==> s == "admin" || s == "user" || s == "viewer"
    ensures r.Some? ==> (s == "admin" ==> r.value == Admin) && (s == "user" ==> r.value == User)
                        && (s == "viewer" ==> r.value == Viewer)
  {
    if s == "admin" then Some(Admin)
    else if s == "user" then Some(User)
    else if s == "viewer" then Some(Viewer)
    else None
  }

  /** A row of the `users` table. `senha` holds the stored password digest;
      `active` is the 0/1 column read as a boolean. */
  datatype UserRow = UserRow(
    id: nat,
    nome: string,
    email: string,
    senha: string,
    role: Role,
    active: bool,
    createdAt: string,
    updatedAt: string)

  /** The user object the handlers return: every column but `senha`, with
      `active` coerced to a boolean. */
  datatype UserView = UserView(
    id: nat,
    nome: string,
    email: string,
    role: Role,
    active: bool,
    createdAt: string,
    updatedAt: string)

  /** The row with the password column omitted. */
  function ToView(row: UserRow): (v: UserView)
    ensures v.id == row.id && v.nome == row.nome && v.email == row.email && v.role == row.role
    ensures v.active == row.active && v.createdAt == row.createdAt && v.updatedAt == row.updatedAt
  {
    UserView(row.id, row.nome, row.email, row.role, row.active, row.createdAt, row.updatedAt)
  }

  /** The projection loses only the password digest: two rows that differ in
      `senha` alone have the same view, and otherwise the view determines the row. */
  lemma ToViewForgetsOnlySenha(a: UserRow, b: UserRow)
    ensures ToView(a) == ToView(b) <==> a == b.(senha := a.senha)
  {
  }

  /** The table in row order; `.first()` of a query is the first matching row. */
  type UserTable = seq<UserRow>

  /** The index of the first row satisfying `p`. */
  function FirstMatch(t: UserTable, p: UserRow -> bool): (r: Option<nat>)
    ensures r.Some? ==> r.value < |t| && p(t[r.value])
    ensures r.Some? ==> forall j :: 0 <= j < r.value ==> !p(t[j])
    ensures r.None? ==> forall j :: 0 <= j < |t| ==> !p(t[j])
    decreases |t|
  {
    if |t| == 0 then None
    else if p(t[0]) then Some(0)
    else match FirstMatch(t[1..], p)
      case None => None
      case Some(k) => Some(k + 1)
  }

  function RowAt(t: UserTable, i: Option<nat>): Option<UserRow>
    requires i.Some? ==> i.value < |t|
  {
    match i
    case None => None
    case Some(k) => Some(t[k])
  }

  /** `SELECT ... FROM users WHERE email = ?` */
  function FindByEmail(t: UserTable, email: string): (r: Option<UserRow>)
    ensures r.Some? ==> r.value in t && r.value.email == email
    ensures r.None? <==> forall j :: 0 <= j < |t| ==> t[j].email != email
  {
    RowAt(t, FirstMatch(t, (row: UserRow) => row.email == email))
  }

  /** `SELECT ... FROM users WHERE id = ?` */
  function FindById(t: UserTable, id: int): (r: Option<UserRow>)
    ensures r.Some? ==> r.value in t && r.value.id == id
    ensures r.None? <==> forall j :: 0 <= j < |t| ==> t[j].id != id
  {
    RowAt(t, FirstMatch(t, (row: UserRow) => row.id == id))
  }

  /** `SELECT ... FROM users WHERE id = ? AND active = 1` */
  function FindActiveById(t: UserTable, id: int): (r: Option<UserRow>)
    ensures r.Some? ==> r.value in t && r.value.id == id && r.value.active
    ensures r.None? <==> forall j :: 0 <= j < |t| ==> !(t[j].id == id && t[j].active)
  {
    RowAt(t, FirstMatch(t, (row: UserRow) => row.id == id && row.active))
  }

  /** Ids are the primary key: no two rows share one. */
  ghost predicate UniqueIds(t: UserTable) {
    forall i, j :: 0 <= i < |t| && 0 <= j < |t| && t[i].id == t[j].id ==> i == j
  }

  /** With unique ids, the active-only lookup is the plain lookup filtered by
      `active`. */
  lemma FindActiveByIdIsFilteredFindById(t: UserTable, id: int)
    requires UniqueIds(t)
    ensures FindActiveById(t, id) == (if FindById(t, id).Some? && FindById(t, id).value.active
                                      then FindById(t, id) else None)
  {
    var a := FindActiveById(t, id);
    var b := FindById(t, id);
    if a.Some? {
      var i :| 0 <= i < |t| && t[i] == a.value;
      var j :| 0 <= j < |t| && t[j] == b.value;
      assert i == j;
    }
  }

  // ---------------------------------------------------------------------
  // Field rules of the request bodies
  // ---------------------------------------------------------------------

  /** A body field as it arrives: absent (`undefined`) or a string. A text
      field of another JSON type is refused like an absent one, so it is
      `None`; a `role` of another type is `Some` of a string that names no
      role, because the default fills in only an absent role. */
  datatype RegisterBody = RegisterBody(
    nome: Option<string>,
    email: Option<string>,
    senha: Option<string>,
    role: Option<string>)

  datatype LoginBody = LoginBody(email: Option<string>, senha: Option<string>)

  /** A registration body that passed validation, with the role defaulted. */
  datatype Registration = Registration(nome: string, email: string, senha: string, role: Role)

  datatype Credentials = Credentials(email: string, senha: string)

  /** A validation outcome; on failure, the names of the offending fields in
      schema order. */
  datatype Validated<T> = Valid(value: T) | Invalid(fields: seq<string>)

  const MinNameLength: nat := 2
  const MaxNameLength: nat := 100
  const MaxEmailLength: nat := 255
  const MinPasswordLength: nat := 8

  predicate IsLower(c: char) { 'a' <= c <= 'z' }
  predicate IsUpper(c: char) { 'A' <= c <= 'Z' }

  /** The characters `.` refuses to match in a JavaScript regular expression. */
  predicate IsLineTerminator(c: char) {
    c == '\n' || c == '\r' || c == '\U{2028}' || c == '\U{2029}'
  }

  /** The text before the first line terminator. */
  function FirstLine(s: string): (r: string)
    ensures StartsWith(s, r)
    ensures forall i :: 0 <= i < |r| ==> !IsLineTerminator(r[i])
    ensures |r| < |s| ==> IsLineTerminator(s[|r|])
    decreases |s|
  {
    if |s| == 0 || IsLineTerminator(s[0]) then "" else [s[0]] + FirstLine(s[1..])
  }

  predicate HasLower(s: string) { exists i :: 0 <= i < |s| && IsLower(s[i]) }
  predicate HasUpper(s: string) { exists i :: 0 <= i < |s| && IsUpper(s[i]) }
  predicate HasDigit(s: string) { exists i :: 0 <= i < |s| && IsDigit(s[i]) }

  /** `/^(?=.*[a-z])(?=.*[A-Z])(?=.*\d)/`: each lookahead starts at the
      beginning and its `.*` cannot cross a line terminator, so all three
      classes must occur on the first line. */
  predicate PasswordPattern(s: string) {
    var line := FirstLine(s);
    HasLower(line) && HasUpper(line) && HasDigit(line)
  }

  predicate StrongPassword(s: string) {
    |s| >= MinPasswordLength && PasswordPattern(s)
  }

  predicate NameOk(s: string) {
    MinNameLength <= |s| <= MaxNameLength
  }

  /** `isEmail` stands for the schema library's e-mail format check. */
  predicate EmailOk(isEmail: string -> bool, s: string) {
    isEmail(s) && |s| <= MaxEmailLength
  }

  /** An absent role defaults to `user`; a present one must name the enumeration. */
  function RoleOrDefault(role: Option<string>): Option<Role> {
    match role
    case None => Some(User)
    case Some(s) => ParseRole(s)
  }

  /** The `userRegister` schema. */
  function ValidateRegister(isEmail: string -> bool, body: RegisterBody): (r: Validated<Registration>)
    ensures r.Valid? <==> body.nome.Some? && NameOk(body.nome.value)
                          && body.email.Some? && EmailOk(isEmail, body.email.value)
                          && body.senha.Some? && StrongPassword(body.senha.value)
                          && RoleOrDefault(body.role).Some?
    ensures r.Valid? ==> NameOk(r.value.nome) && EmailOk(isEmail, r.value.email)
    ensures r.Valid? ==> StrongPassword(r.value.senha) && r.value.role == RoleOrDefault(body.role).value
    ensures r.Valid? ==> |r.value.senha| >= 8 && HasLower(r.value.senha) && HasUpper(r.value.senha)
                         && HasDigit(r.value.senha)
    ensures r.Valid? ==> Some(r.value.nome) == body.nome && Some(r.value.email) == body.email
                         && Some(r.value.senha) == body.senha
    ensures r.Valid? ==> (body.role.None? ==> r.value.role == User)
                         && (body.role.Some? ==> RoleName(r.value.role) == body.role.value)
    ensures r.Invalid? ==> |r.fields| > 0
    ensures r.Invalid? ==> ("nome" in r.fields <==> !(body.nome.Some? && NameOk(body.nome.value)))
    ensures r.Invalid? ==> ("email" in r.fields <==> !(body.email.Some? && EmailOk(isEmail, body.email.value)))
    ensures r.Invalid? ==> ("senha" in r.fields <==> !(body.senha.Some? && StrongPassword(body.senha.value)))
    ensures r.Invalid? ==> ("role" in r.fields <==> RoleOrDefault(body.role).None?)
  {
    var nomeOk := body.nome.Some? && NameOk(body.nome.value);
    var emailOk := body.email.Some? && EmailOk(isEmail, body.email.value);
    var senhaOk := body.senha.Some? && StrongPassword(body.senha.value);
    var role := RoleOrDefault(body.role);
    var errors := (if nomeOk then [] else ["nome"]) + (if emailOk then [] else ["email"])
                  + (if senhaOk then [] else ["senha"]) + (if role.Some? then [] else ["role"]);
    if nomeOk && emailOk && senhaOk && role.Some? then
      PatternHoldsOfWhole(body.senha.value);
      Valid(Registration(body.nome.value, body.email.value, body.senha.value, role.value))
    else
      Invalid(errors)
  }

  /** What the first line contains, the whole string contains. */
  lemma PatternHoldsOfWhole(s: string)
    requires PasswordPattern(s)
    ensures HasLower(s) && HasUpper(s) && HasDigit(s)
  {
    var line := FirstLine(s);
    assert forall i :: 0 <= i < |line| ==> s[i] == line[i];
  }

  /** On a single-line password the pattern is exactly "one lower-case letter,
      one upper-case letter and one digit somewhere". */
  lemma {:induction false} PatternOnSingleLine(s: string)
    requires forall i :: 0 <= i < |s| ==> !IsLineTerminator(s[i])
    ensures PasswordPattern(s) <==> HasLower(s) && HasUpper(s) && HasDigit(s)
  {
    FirstLineOfSingleLine(s);
  }

  lemma {:induction false} FirstLineOfSingleLine(s: string)
    requires forall i :: 0 <= i < |s| ==> !IsLineTerminator(s[i])
    ensures FirstLine(s) == s
    decreases |s|
  {
    if |s| > 0 {
      FirstLineOfSingleLine(s[1..]);
    }
  }

  /** A digit placed after a line break does not satisfy the pattern, although
      the password is long enough and has all three character classes. */
  lemma DigitAfterLineBreakIsRejected()
    ensures var s := "Abcdefgh\n1"; |s| >= 8 && HasDigit(s) && !StrongPassword(s)
  {
    var s := "Abcdefgh\n1";
    assert IsDigit(s[9]);
    assert s == "Abcdefgh" + "\n1";
    FirstLineStopsAtTerminator("Abcdefgh", "\n1");
    var line := FirstLine(s);
    assert forall i :: 0 <= i < |line| ==> !IsDigit(line[i]);
  }

  lemma {:induction false} FirstLineStopsAtTerminator(a: string, b: string)
    requires forall i :: 0 <= i < |a| ==> !IsLineTerminator(a[i])
    requires |b| > 0 && IsLineTerminator(b[0])
    ensures FirstLine(a + b) == a
    decreases |a|
  {
    if |a| == 0 {
      assert a + b == b;
    } else {
      assert (a + b)[1..] == a[1..] + b;
      FirstLineStopsAtTerminator(a[1..], b);
    }
  }

  /** The `userLogin` schema: a well-formed e-mail and a non-empty password,
      with no strength rule and no length cap on the e-mail. */
  function ValidateLogin(isEmail: string -> bool, body: LoginBody): (r: Validated<Credentials>)
    ensures r.Valid? <==> body.email.Some? && isEmail(body.email.value)
                          && body.senha.Some? && |body.senha.value| >= 1
    ensures r.Valid? ==> r.value == Credentials(body.email.value, body.senha.value)
    ensures r.Invalid? ==> ("senha" in r.fields <==> !(body.senha.Some? && |body.senha.value| >= 1))
  {
    var emailOk := body.email.Some? && isEmail(body.email.value);
    var senhaOk := body.senha.Some? && |body.senha.value| >= 1;
    var errors := (if emailOk then [] else ["email"]) + (if senhaOk then [] else ["senha"]);
    if emailOk && senhaOk then Valid(Credentials(body.email.value, body.senha.value)) else Invalid(errors)
  }

  /** Every body the registration schema accepts, presented again to login
      with the same e-mail and password, is accepted there too. */
  lemma RegisteredCredentialsPassLogin(isEmail: string -> bool, body: RegisterBody)
    requires ValidateRegister(isEmail, body).Valid?
    ensures ValidateLogin(isEmail, LoginBody(body.email, body.senha)).Valid?
  {
  }
}
