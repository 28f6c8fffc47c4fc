/** The cookie jar both session routes read and write: a map from cookie name to cookie. */
module Cookies {
  import opened Wrappers

  /** A cookie and the attributes the login route sets on it. */
  datatype Cookie = Cookie(value: string, httpOnly: bool, secure: bool, sameSite: string,
                           maxAge: int, path: string)

  class CookieJar {
    var cookies: map<string, Cookie>

    constructor (initial: map<string, Cookie>)
      ensures cookies == initial
    {
      cookies := initial;
    }

    /** `cookieStore.get(name)`: the cookie, or nothing. */
    function Get(name: string): (r: Option<Cookie>)
      reads this
      ensures r.Some? <==> name in cookies
      ensures r.Some? ==> r.value == cookies[name]
    {
      if name in cookies then Some(cookies[name]) else None
    }

    /** `cookieStore.set(name, ...)`: adds the cookie or replaces the one of that name. */
    method Set(name: string, c: Cookie)
      modifies this
      ensures cookies == old(cookies)[name := c]
    {
      cookies := cookies[name := c];
    }

    /** `cookieStore.delete(name)`: the cookie is gone, every other one is kept. */
    method Delete(name: string)
      modifies this
      ensures cookies == old(cookies) - {name}
    {
      cookies := cookies - {name};
    }
  }
}
