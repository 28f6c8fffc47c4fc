/** `POST /api/auth/login`: checks a username and password against the configured admin pair
    and, on a match, stores a session token in the `admin-session` cookie. */
module LoginRoute {
  import opened Wrappers
  import opened Text
  import Utf8
  import Base64
  import opened Cookies

  const SessionCookie: string := "admin-session"

  /** The cookie lifetime, in seconds: 24 hours. */
  const SessionMaxAgeSeconds: int := 60 * 60 * 24

  /** A field of the JSON body as the route sees it: absent, a string, or some other JSON
      value, of which only its truthiness matters here. */
  datatype Field = Absent | Str(s: string) | Other(truthy: bool)

  /** JavaScript falsiness of a field: `undefined`, `""`, or a falsy non-string. */
  predicate Falsy(f: Field) {
    f.Absent? || f == Str("") || f == Other(false)
  }

  datatype Body = Body(username: Field, password: Field)

  datatype Credentials = Credentials(username: string, password: string)

  /** The environment values the credentials come from; `None` is an unset variable. */
  datatype Env = Env(adminUsername: Option<string>, adminPassword: Option<string>)

  /** The route's replies: 200 with a success message, or an error status and message. */
  datatype Reply = Success | Failure(status: int, error: string)

  /** `ADMIN_CREDENTIALS`: each environment value, or its default when unset or empty. */
  function AdminCredentials(env: Env): (c: Credentials)
    ensures c.username != "" && c.password != ""
    ensures env.adminUsername.None? ==> c.username == "admin"
    ensures env.adminPassword.None? ==> c.password == "admin123"
    ensures env.adminUsername.Some? && env.adminUsername.value != "" ==> c.username == env.adminUsername.value
    ensures env.adminPassword.Some? && env.adminPassword.value != "" ==> c.password == env.adminPassword.value
  {
    Credentials(
      if env.adminUsername.Some? && env.adminUsername.value != "" then env.adminUsername.value else "admin",
      if env.adminPassword.Some? && env.adminPassword.value != "" then env.adminPassword.value else "admin123")
  }

  /** The session token: the base64 encoding of the UTF-8 bytes of `username:now`. */
  function SessionToken(username: string, now: nat): string {
    Base64.Encode(Utf8.Encode(username + ":" + Decimal(now)))
  }

  /** The cookie the login sets: HTTP-only, same-site strict, for the whole site, for 24
      hours, and `secure` exactly in production. */
  function SessionCookieFor(token: string, production: bool): (c: Cookie)
    ensures c.value == token && c.httpOnly && c.sameSite == "strict" && c.path == "/"
    ensures c.secure <==> production
    ensures c.maxAge == SessionMaxAgeSeconds
  {
    Cookie(token, true, production, "strict", SessionMaxAgeSeconds, "/")
  }

  /** The route. `body` is `None` when the request body is not JSON, which throws inside the
      handler and is answered with 500. */
  method Post(jar: CookieJar, env: Env, body: Option<Body>, now: nat, production: bool)
    returns (r: Reply)
    modifies jar
    ensures body.None? ==> r == Failure(500, "Internal server error")
    ensures body.Some? && (Falsy(body.value.username) || Falsy(body.value.password)) ==>
              r == Failure(400, "Username and password are required")
    ensures r.Success? <==>
              body.Some? && body.value.username == Str(AdminCredentials(env).username)
              && body.value.password == Str(AdminCredentials(env).password)
    ensures body.Some? && !Falsy(body.value.username) && !Falsy(body.value.password) && !r.Success? ==>
              r == Failure(401, "Invalid credentials")
    ensures r.Success? ==>
              jar.cookies == old(jar.cookies)[SessionCookie :=
                SessionCookieFor(SessionToken(body.value.username.s, now), production)]
    ensures !r.Success? ==> jar.cookies == old(jar.cookies)
  {
    if body.None? {
      return Failure(500, "Internal server error");
    }
    var username, password := body.value.username, body.value.password;
    if Falsy(username) || Falsy(password) {
      return Failure(400, "Username and password are required");
    }
    var admin := AdminCredentials(env);
    if username == Str(admin.username) && password == Str(admin.password) {
      var token := SessionToken(username.s, now);
      jar.Set(SessionCookie, SessionCookieFor(token, production));
      r := Success;
    } else {
      r := Failure(401, "Invalid credentials");
    }
  }
}
