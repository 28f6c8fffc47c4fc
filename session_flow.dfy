/** The two session routes run one after the other on the same cookie jar: the admin logs in,
    and later visits check the session. */
module SessionFlow {
  import opened Wrappers
  import opened Cookies
  import opened LoginRoute
  import opened VerifyRoute

  /** Logging in with the configured pair and checking within 24 hours authenticates as that
      admin. */
  method LoginThenVerify(jar: CookieJar, env: Env, loginTime: nat, checkTime: int, production: bool)
    returns (login: Reply, check: VerifyReply)
    requires ':' !in AdminCredentials(env).username
    requires checkTime - loginTime <= MaxAgeMs
    modifies jar
    ensures login.Success?
    ensures check == Authenticated(AdminCredentials(env).username)
    ensures SessionCookie in jar.cookies
  {
    var admin := AdminCredentials(env);
    login := Post(jar, env, Some(Body(Str(admin.username), Str(admin.password))), loginTime, production);
    SessionTokenRoundTrip(admin.username, loginTime, checkTime);
    check := Get(jar, checkTime);
  }

  /** A check more than 24 hours after login is refused and removes the cookie, so every
      later check is refused too, whatever its time. */
  method LoginThenExpire(jar: CookieJar, env: Env, loginTime: nat, checkTime: int, laterTime: int,
                         production: bool)
    returns (check: VerifyReply, later: VerifyReply)
    requires ':' !in AdminCredentials(env).username
    requires checkTime - loginTime > MaxAgeMs
    modifies jar
    ensures check == Unauthenticated && later == Unauthenticated
    ensures SessionCookie !in jar.cookies
  {
    var admin := AdminCredentials(env);
    var login := Post(jar, env, Some(Body(Str(admin.username), Str(admin.password))), loginTime, production);
    SessionTokenRoundTrip(admin.username, loginTime, checkTime);
    check := Get(jar, checkTime);
    later := Get(jar, laterTime);
  }

  /** A failed login leaves whatever session there was: a wrong password neither creates nor
      removes the cookie. */
  method WrongPasswordKeepsJar(jar: CookieJar, env: Env, password: string, now: nat, production: bool)
    returns (login: Reply)
    requires password != AdminCredentials(env).password
    modifies jar
    ensures !login.Success?
    ensures jar.cookies == old(jar.cookies)
  {
    var admin := AdminCredentials(env);
    login := Post(jar, env, Some(Body(Str(admin.username), Str(password))), now, production);
  }
}
