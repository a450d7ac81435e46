/** internal/api/user_handler.go: the request validators and what login and
    logout answer.

    A login request arrives as JSON when its Content-Type is exactly
    `application/json` and as form fields otherwise. Failures answer a JSON
    request with a status and an error message, and a form request with a
    303 redirect to `/?error=` and the same message. The user store, the
    password check and the session store are function parameters. */
module UserHandler {
  import opened Common
  import opened Text

  const JsonContentType: string := "application/json"

  /** The lifetime `HandleLogin` asks the session store for: 24 hours. */
  const SessionLifetime: int := 24 * 60 * 60

  /** The cookie's MaxAge on login: 86400 seconds. */
  const SessionCookieMaxAge: int := 86400

  datatype LoginRequest = LoginRequest(username: string, password: string)

  datatype CreateUserRequest = CreateUserRequest(username: string, password: string)

  /** A blank username is reported first, then a blank password. */
  function CredentialsError(username: string, password: string): Option<string> {
    if TrimSpace(username) == "" then Some("username is required")
    else if TrimSpace(password) == "" then Some("password is required")
    else None
  }

  /** `validateLoginRequest`. */
  function ValidateLoginRequest(req: LoginRequest): (err: Option<string>)
    ensures err == Some("username is required") <==> IsBlank(req.username)
    ensures err == Some("password is required") <==> !IsBlank(req.username) && IsBlank(req.password)
    ensures err == None <==> !IsBlank(req.username) && !IsBlank(req.password)
  {
    CredentialsError(req.username, req.password)
  }

  /** `validateCreateRequest`: the same rules as for a login. */
  function ValidateCreateRequest(req: CreateUserRequest): (err: Option<string>)
    ensures err == Some("username is required") <==> IsBlank(req.username)
    ensures err == Some("password is required") <==> !IsBlank(req.username) && IsBlank(req.password)
    ensures err == None <==> !IsBlank(req.username) && !IsBlank(req.password)
  {
    CredentialsError(req.username, req.password)
  }

  /** A JSON response body. */
  datatype Body = ErrorJson(error: string) | LoginJson(userId: int, message: string)

  /** How a handler answers: a JSON response, a 303 redirect, or a 200 with an
      `HX-Redirect` header for htmx. */
  datatype Reply = Json(status: int, body: Body) | SeeOther(location: string) | HxRedirect(location: string)

  datatype Cookie = Cookie(name: string, value: string, path: string, maxAge: int, httpOnly: bool, sameSiteLax: bool)

  /** What the user store answers for a username. */
  datatype UserLookup = LookupFailed | NoSuchUser | Found(id: int)

  /** What the password check answers. */
  datatype PasswordCheck = CheckFailed | Mismatch | Match

  /** The reply, the cookie set, and the session requested as (user id,
      lifetime in seconds). */
  datatype LoginResult = LoginResult(reply: Reply, cookie: Option<Cookie>, session: Option<(int, int)>)

  /** A failure: JSON gets the status, a form a redirect carrying the message. */
  function Failure(isJson: bool, status: int, message: string): Reply {
    if isJson then Json(status, ErrorJson(message)) else SeeOther("/?error=" + message)
  }

  /** The request as read: JSON for exactly `application/json`, form fields
      otherwise; `None` when that reading fails. */
  function DecodeLogin(contentType: string, jsonBody: Option<LoginRequest>, form: Option<LoginRequest>): (r: Option<LoginRequest>)
    ensures contentType == JsonContentType ==> r == jsonBody
    ensures contentType != JsonContentType ==> r == form
  {
    if contentType == JsonContentType then jsonBody else form
  }

  /** Where the credential checks end: refused with a status and message, or
      accepted as a user. */
  datatype Verdict = Refused(status: int, message: string) | Accepted(userId: int)

  /** The checks of a decoded login request, in order: it validates, the user
      exists, the password matches. A store or hashing failure is a 500; an
      unknown user and a wrong password are the same 401. */
  function Verify(req: LoginRequest, lookupUser: string -> UserLookup, checkPassword: (int, string) -> PasswordCheck): (v: Verdict)
    ensures v.Accepted? <==>
      && ValidateLoginRequest(req).None?
      && lookupUser(req.username).Found?
      && checkPassword(lookupUser(req.username).id, req.password) == Match
    ensures v.Accepted? ==> v.userId == lookupUser(req.username).id
    ensures ValidateLoginRequest(req).Some? ==> v == Refused(400, ValidateLoginRequest(req).value)
    ensures ValidateLoginRequest(req).None? && lookupUser(req.username) == NoSuchUser ==> v == Refused(401, "invalid credentials")
    ensures (ValidateLoginRequest(req).None? && lookupUser(req.username).Found?
             && checkPassword(lookupUser(req.username).id, req.password) == Mismatch) ==>
            v == Refused(401, "invalid credentials")
    ensures v.Refused? && v.status == 500 <==>
      && ValidateLoginRequest(req).None?
      && (|| lookupUser(req.username) == LookupFailed
          || (lookupUser(req.username).Found? && checkPassword(lookupUser(req.username).id, req.password) == CheckFailed))
  {
    match ValidateLoginRequest(req)
    case Some(message) => Refused(400, message)
    case None =>
      match lookupUser(req.username)
      case LookupFailed => Refused(500, "internal server error")
      case NoSuchUser => Refused(401, "invalid credentials")
      case Found(userId) =>
        match checkPassword(userId, req.password)
        case CheckFailed => Refused(500, "internal server error")
        case Mismatch => Refused(401, "invalid credentials")
        case Match => Accepted(userId)
  }

  /** The answer to an accepted login once the session store has answered. */
  function SessionReply(isJson: bool, hxRequest: string, userId: int, token: Option<string>): (r: (Reply, Option<Cookie>))
    ensures r.1.Some? <==> token.Some?
    ensures token.None? ==> r.0 == Failure(isJson, 500, "internal server error")
    ensures token.Some? ==> r.1 == Some(Cookie("session_token", token.value, "/", SessionCookieMaxAge, true, true))
    ensures token.Some? && hxRequest == "true" ==> r.0 == HxRedirect("/dashboard")
    ensures token.Some? && hxRequest != "true" && !isJson ==> r.0 == SeeOther("/dashboard")
    ensures token.Some? && hxRequest != "true" && isJson ==> r.0 == Json(200, LoginJson(userId, "login successful"))
  {
    match token
    case None => (Failure(isJson, 500, "internal server error"), None)
    case Some(value) =>
      var reply :=
        if hxRequest == "true" then HxRedirect("/dashboard")
        else if !isJson then SeeOther("/dashboard")
        else Json(200, LoginJson(userId, "login successful"));
      (reply, Some(Cookie("session_token", value, "/", SessionCookieMaxAge, true, true)))
  }

  /** `HandleLogin`. `hxRequest` is the `HX-Request` header; `jsonBody` and
      `form` are the two readings of the body; `createSession` is the
      session store's answer, a token or a failure. A session is requested
      only for an accepted login, for that user and 24 hours; the cookie is
      set only when the session was created. */
  function HandleLogin(
    contentType: string, hxRequest: string, jsonBody: Option<LoginRequest>, form: Option<LoginRequest>,
    lookupUser: string -> UserLookup, checkPassword: (int, string) -> PasswordCheck,
    createSession: (int, int) -> Option<string>): (r: LoginResult)
    ensures var req := DecodeLogin(contentType, jsonBody, form);
      r.session.Some? <==> req.Some? && Verify(req.value, lookupUser, checkPassword).Accepted?
    ensures r.session.Some? ==>
      r.session.value == (Verify(DecodeLogin(contentType, jsonBody, form).value, lookupUser, checkPassword).userId, SessionLifetime)
    ensures r.cookie.Some? ==> r.session.Some? && createSession(r.session.value.0, r.session.value.1).Some?
    ensures DecodeLogin(contentType, jsonBody, form).None? ==> r.reply == Json(400, ErrorJson("invalid request"))
    ensures var req := DecodeLogin(contentType, jsonBody, form);
      req.Some? && Verify(req.value, lookupUser, checkPassword).Refused? ==>
        var v := Verify(req.value, lookupUser, checkPassword);
        r.reply == Failure(contentType == JsonContentType, v.status, v.message)
    ensures r.session.Some? ==>
      (r.reply, r.cookie) == SessionReply(contentType == JsonContentType, hxRequest, r.session.value.0, createSession(r.session.value.0, r.session.value.1))
  {
    var isJson := contentType == JsonContentType;
    match DecodeLogin(contentType, jsonBody, form)
    case None => LoginResult(Json(400, ErrorJson("invalid request")), None, None)
    case Some(req) =>
      match Verify(req, lookupUser, checkPassword)
      case Refused(status, message) => LoginResult(Failure(isJson, status, message), None, None)
      case Accepted(userId) =>
        var (reply, cookie) := SessionReply(isJson, hxRequest, userId, createSession(userId, SessionLifetime));
        LoginResult(reply, cookie, Some((userId, SessionLifetime)))
  }

  /** An unknown username and a wrong password for a known one get the same
      answer, and neither starts a session. */
  lemma UnknownUserLikeWrongPassword(
    contentType: string, hxRequest: string, jsonBody: Option<LoginRequest>, form: Option<LoginRequest>,
    unknown: string -> UserLookup, known: string -> UserLookup, checkPassword: (int, string) -> PasswordCheck,
    createSession: (int, int) -> Option<string>)
    requires DecodeLogin(contentType, jsonBody, form).Some?
    requires var req := DecodeLogin(contentType, jsonBody, form).value;
      && unknown(req.username) == NoSuchUser
      && known(req.username).Found? && checkPassword(known(req.username).id, req.password) == Mismatch
    ensures HandleLogin(contentType, hxRequest, jsonBody, form, unknown, checkPassword, createSession)
         == HandleLogin(contentType, hxRequest, jsonBody, form, known, checkPassword, createSession)
    ensures HandleLogin(contentType, hxRequest, jsonBody, form, unknown, checkPassword, createSession).session.None?
  {
  }

  /** The reply, the cookie set, and the token whose session is deleted. */
  datatype LogoutResult = LogoutResult(reply: Reply, cookie: Cookie, deletes: Option<string>)

  /** `HandleLogout`. `cookie` is the request's `session_token` cookie, if
      any; `deleted` is what the session store answers for the delete. */
  function HandleLogout(cookie: Option<string>, hxRequest: string, deleted: Outcome<DbError>): (r: LogoutResult)
    ensures r.cookie.name == "session_token" && r.cookie.value == "" && r.cookie.maxAge < 0
    ensures r.deletes.Some? <==> cookie.Some? && cookie.value != ""
    ensures r.deletes.Some? ==> r.deletes.value == cookie.value
    ensures hxRequest == "true" ==> r.reply == HxRedirect("/")
    ensures hxRequest != "true" ==> r.reply == SeeOther("/")
  {
    var deletes := if cookie.Some? && cookie.value != "" then Some(cookie.value) else None;
    var expired := Cookie("session_token", "", "/", -1, true, true);
    var reply := if hxRequest == "true" then HxRedirect("/") else SeeOther("/");
    LogoutResult(reply, expired, deletes)
  }

  /** A failed session delete changes nothing the client sees. */
  lemma LogoutIgnoresDeleteFailure(cookie: Option<string>, hxRequest: string, cause: DbError)
    ensures HandleLogout(cookie, hxRequest, Fail(cause)) == HandleLogout(cookie, hxRequest, Pass)
  {
  }
}
