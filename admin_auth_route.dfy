/** The admin session endpoint: POST logs in, DELETE logs out, GET checks
    the session cookie. Password hashing and token signing are the
    libraries' business and appear here as abstract functions. */
module AdminAuthRoute {
  import opened Common
  import opened Validation
  import opened Tables

  const TokenCookie := "admin_token"

  /** Token lifetime ('24h') and cookie maxAge, in seconds. */
  const SessionSeconds := 86400

  /** What a signed token carries. */
  datatype Claims = Claims(adminId: int, username: string, email: string, expiresInSeconds: nat)

  /** bcrypt's compare, and jsonwebtoken's sign and verify; verify yields
      None where the library throws (bad signature, expired token). */
  datatype Crypto = Crypto(
    passwordMatches: (string, string) -> bool,
    sign: Claims -> string,
    verify: string -> Option<Claims>)

  /** The admin record a response may carry: every selected column except
      the password hash. */
  datatype AdminProfile = AdminProfile(id: int, username: string, email: string, name: string, active: bool)

  function Profile(a: Admin): AdminProfile {
    AdminProfile(a.id, a.username, a.email, a.name, a.active)
  }

  datatype SessionCookie = SessionCookie(
    name: string,
    value: string,
    httpOnly: bool,
    secure: bool,
    sameSite: string,
    maxAge: nat)

  datatype LoginBody = LoginBody(username: Field<string>, password: Field<string>)

  /** `loginSchema` */
  function LoginIssues(body: LoginBody): (r: seq<Issue>)
    ensures r == [] <==>
      body.username.Given? && Utf16Length(body.username.value) >= 3
      && body.password.Given? && Utf16Length(body.password.value) >= 6
  {
    TextIssues("username", body.username, true, [MinLength(3)], NoFormats)
    + TextIssues("password", body.password, true, [MinLength(6)], NoFormats)
  }

  datatype LoginResponse =
    | LoginInvalid(issues: seq<Issue>)
    | BadCredentials
    | LoggedIn(admin: AdminProfile, cookie: SessionCookie)
  {
    function Status(): int {
      match this
      case LoginInvalid(_) => 400
      case BadCredentials => 401
      case LoggedIn(_, _) => 200
    }

    function Message(): string {
      match this
      case LoginInvalid(_) => "Datos inválidos"
      case BadCredentials => "Credenciales inválidas"
      case LoggedIn(_, _) => "Login exitoso"
    }
  }

  function ClaimsFor(a: Admin): Claims {
    Claims(a.id, a.username, a.email, SessionSeconds)
  }

  function SessionCookieFor(token: string, production: bool): SessionCookie {
    SessionCookie(TokenCookie, token, true, production, "lax", SessionSeconds)
  }

  /** POST: validate, look up the active admin by username, compare the
      password, then sign a token and set it as a cookie. */
  function Login(body: LoginBody, admins: seq<Admin>, crypto: Crypto, production: bool): (r: LoginResponse)
    ensures r.LoginInvalid? <==> LoginIssues(body) != []
    ensures r.LoginInvalid? ==> r.issues == LoginIssues(body)
    ensures r.BadCredentials? <==>
      LoginIssues(body) == []
      && var found := FindActive(admins, UsernameOf, body.username.value);
         found.None? || !crypto.passwordMatches(body.password.value, found.value.password)
    ensures r.LoggedIn? ==>
      exists i :: 0 <= i < |admins|
        && admins[i].active && admins[i].username == body.username.value
        && crypto.passwordMatches(body.password.value, admins[i].password)
        && r.admin == Profile(admins[i])
        && r.cookie == SessionCookieFor(crypto.sign(ClaimsFor(admins[i])), production)
    ensures r.LoggedIn? ==> r.cookie.httpOnly && r.cookie.sameSite == "lax" && r.cookie.maxAge == 86400
  {
    var issues := LoginIssues(body);
    if issues != [] then LoginInvalid(issues)
    else
      match FindActive(admins, UsernameOf, body.username.value)
      case None => BadCredentials
      case Some(a) =>
        if !crypto.passwordMatches(body.password.value, a.password) then BadCredentials
        else LoggedIn(Profile(a), SessionCookieFor(crypto.sign(ClaimsFor(a)), production))
  }

  /** The admin table with every password hash replaced. */
  function WithHashes(admins: seq<Admin>, hashes: seq<string>): (r: seq<Admin>)
    requires |hashes| == |admins|
    ensures |r| == |admins|
    ensures forall i :: 0 <= i < |r| ==> r[i] == admins[i].(password := hashes[i])
  {
    seq(|admins|, i requires 0 <= i < |admins| => admins[i].(password := hashes[i]))
  }

  /** The stored hashes reach the response only through the comparison:
      tables whose hashes compare alike give the same response, so no hash
      appears in it. */
  lemma LoginSeesHashesOnlyThroughCompare(
    body: LoginBody, admins: seq<Admin>, hashes: seq<string>, crypto: Crypto, production: bool)
    requires |hashes| == |admins|
    requires forall i, p :: 0 <= i < |admins| ==>
      crypto.passwordMatches(p, admins[i].password) == crypto.passwordMatches(p, hashes[i])
    ensures Login(body, admins, crypto, production) == Login(body, WithHashes(admins, hashes), crypto, production)
  {
  }

  datatype SessionResponse =
    | NoToken
    | UnknownAdmin
    | BadToken
    | SessionOk(admin: AdminProfile)
  {
    function Status(): int {
      if SessionOk? then 200 else 401
    }

    function Message(): string {
      match this
      case NoToken => "No hay token de autenticación"
      case UnknownAdmin => "Token inválido"
      case BadToken => "Token inválido o expirado"
      case SessionOk(_) => ""
    }
  }

  /** GET: the cookie must hold a token the library accepts, naming an
      admin that still exists and is active. */
  function CheckSession(cookie: Option<string>, admins: seq<Admin>, crypto: Crypto): (r: SessionResponse)
    ensures NullIfFalsy(cookie).None? ==> r == NoToken
    ensures NullIfFalsy(cookie).Some? && crypto.verify(cookie.value).None? ==> r == BadToken
    ensures r.SessionOk? <==>
      NullIfFalsy(cookie).Some? && crypto.verify(cookie.value).Some?
      && exists i :: 0 <= i < |admins|
           && admins[i].active && admins[i].id == crypto.verify(cookie.value).value.adminId
    ensures r.SessionOk? ==>
      exists i :: 0 <= i < |admins|
        && admins[i].active && admins[i].id == crypto.verify(cookie.value).value.adminId
        && r.admin == Profile(admins[i])
  {
    match NullIfFalsy(cookie)
    case None => NoToken
    case Some(token) =>
      match crypto.verify(token)
      case None => BadToken
      case Some(claims) =>
        match FindActive(admins, IdOf, claims.adminId)
        case None => UnknownAdmin
        case Some(a) => SessionOk(Profile(a))
  }

  /** The cookie a login sets opens a session for the admin who logged in,
      as long as the token the library signs for each admin's claims is not
      empty and verifies back to those claims, and admin ids are unique. */
  lemma LoginThenSession(body: LoginBody, admins: seq<Admin>, crypto: Crypto, production: bool)
    requires forall i :: 0 <= i < |admins| ==> crypto.sign(ClaimsFor(admins[i])) != ""
    requires forall i :: 0 <= i < |admins| ==>
      crypto.verify(crypto.sign(ClaimsFor(admins[i]))) == Some(ClaimsFor(admins[i]))
    requires AdminIdsUnique(admins)
    ensures var r := Login(body, admins, crypto, production);
      r.LoggedIn? ==> CheckSession(Some(r.cookie.value), admins, crypto) == SessionOk(r.admin)
  {
  }

  datatype LogoutResponse = LogoutResponse(status: int, message: string, deletedCookie: string)

  /** DELETE: always succeeds and removes the session cookie; nothing is
      kept on the server, so a copied token stays valid until it expires. */
  function Logout(): (r: LogoutResponse)
    ensures r.status == 200 && r.deletedCookie == TokenCookie
  {
    LogoutResponse(200, "Logout exitoso", TokenCookie)
  }
}
