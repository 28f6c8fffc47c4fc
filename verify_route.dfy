/** `GET /api/auth/verify`: reads the `admin-session` cookie, decodes the token and accepts it
    unless its timestamp is more than 24 hours old; an expired cookie is deleted. */
module VerifyRoute {
  import opened Wrappers
  import opened Text
  import Utf8
  import Base64
  import opened JsNumber
  import opened Cookies
  import opened LoginRoute

  /** The token window, in milliseconds: 24 hours. */
  const MaxAgeMs: int := 60 * 60 * 24 * 1000

  /** What the route reads out of a token: the first `:`-separated segment as the username,
      and `parseInt` of the second as the issue time (`None` for NaN). */
  datatype Claims = Claims(username: string, issuedAt: Option<int>)

  /** Decode, split on `:`, keep the first two segments; a missing second segment is
      `undefined`, which `parseInt` reads as the text "undefined". */
  function ReadToken(token: string): Claims {
    var parts := Split(Utf8.Decode(Base64.Decode(token)), ':');
    Claims(parts[0], ParseInt(if |parts| >= 2 then parts[1] else "undefined"))
  }

  /** `tokenAge > maxAge`: a NaN age is never greater, so an unreadable timestamp never
      expires. */
  predicate Expired(claims: Claims, now: int) {
    claims.issuedAt.Some? && now - claims.issuedAt.value > MaxAgeMs
  }

  /** 200 with the username, or 401 `{authenticated: false}`. */
  datatype VerifyReply = Authenticated(username: string) | Unauthenticated

  /** The route. The decode cannot fail in this model, so its `catch` branch is absent. */
  method Get(jar: CookieJar, now: int) returns (r: VerifyReply)
    modifies jar
    ensures SessionCookie !in old(jar.cookies) ==> r == Unauthenticated && jar.cookies == old(jar.cookies)
    ensures SessionCookie in old(jar.cookies) && Expired(ReadToken(old(jar.cookies)[SessionCookie].value), now) ==>
              r == Unauthenticated && jar.cookies == old(jar.cookies) - {SessionCookie}
    ensures SessionCookie in old(jar.cookies) && !Expired(ReadToken(old(jar.cookies)[SessionCookie].value), now) ==>
              r == Authenticated(ReadToken(old(jar.cookies)[SessionCookie].value).username)
              && jar.cookies == old(jar.cookies)
  {
    var session := jar.Get(SessionCookie);
    if session.None? {
      return Unauthenticated;
    }
    var claims := ReadToken(session.value.value);
    if Expired(claims, now) {
      jar.Delete(SessionCookie);
      return Unauthenticated;
    }
    r := Authenticated(claims.username);
  }

  /** The decoded text of a token is the text that was encoded. */
  lemma DecodeToken(text: string)
    ensures Utf8.Decode(Base64.Decode(Base64.Encode(Utf8.Encode(text)))) == text
  {
    Base64.DecodeEncode(Utf8.Encode(text));
    Utf8.DecodeEncode(text);
  }

  /** A token issued by the login route reads back as its username and issue time, provided
      the username holds no `:`. */
  lemma ReadSessionToken(username: string, t: nat)
    requires ':' !in username
    ensures ReadToken(SessionToken(username, t)) == Claims(username, Some(t))
  {
    var d := Decimal(t);
    DecodeToken(username + ":" + d);
    assert ':' !in d;
    SplitNoSeparator(d, ':');
    SplitAfterPiece(username, ':', d);
    ParseIntDecimal(t, []);
    assert d + [] == d;
  }

  /** Round trip: a token issued at `t` is accepted at `now` exactly when `now - t` is at most
      24 hours, a future issue time included; past the window it is expired. */
  lemma SessionTokenRoundTrip(username: string, t: nat, now: int)
    requires ':' !in username
    ensures ReadToken(SessionToken(username, t)).username == username
    ensures !Expired(ReadToken(SessionToken(username, t)), now) <==> now - t <= MaxAgeMs
  {
    ReadSessionToken(username, t);
  }

  /** A token whose decoded text has no `:` has no timestamp, so it never expires: the
      forgeable token `base64(name)` is accepted at any time. */
  lemma TokenWithoutTimestamp(username: string, now: int)
    requires ':' !in username
    ensures ReadToken(Base64.Encode(Utf8.Encode(username))) == Claims(username, None)
    ensures !Expired(ReadToken(Base64.Encode(Utf8.Encode(username))), now)
  {
    DecodeToken(username);
    SplitNoSeparator(username, ':');
    ParseIntUndefined();
  }

  /** The cookie's lifetime and the token window are the same 24 hours. */
  lemma CookieLifetimeMatchesWindow(token: string, production: bool)
    ensures SessionCookieFor(token, production).maxAge * 1000 == MaxAgeMs
  {
  }
}
