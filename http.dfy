/** The request and response vocabulary of the route handlers: the `token` cookie guard that
    opens every authenticated route, cookies, and the response whose cookie jar
    `response.cookies.set` fills. */
module Http {
  import opened Common

  type UserId = string

  /** The JWT payload the login route signs, `{ id, email }`; `decoded.id` is what the
      authenticated routes use. */
  datatype Claims = Claims(id: UserId, email: string)

  /** `jwt.verify(token, JWT_SECRET)`: the payload of a token it accepts, `None` when it throws
      (bad signature, malformed, expired). The library's code is not part of this model. */
  type Verifier = string -> Option<Claims>

  /** `signToken(payload)` from the JWT helper library, which is not part of this model. */
  type Signer = Claims -> string

  /** `req.cookies`: the cookie values the browser sent, by name. */
  type RequestCookies = map<string, string>

  /** The outcome of the guard every authenticated route runs first. */
  datatype Guard = NoToken | BadToken | Verified(claims: Claims)

  /** `const token = req.cookies.get("token")?.value; if (!token) ...` then `jwt.verify(token)`.
      An empty cookie value is falsy, so it counts as no token. */
  function Authenticate(cookies: RequestCookies, verify: Verifier): (g: Guard)
    ensures g.NoToken? <==> "token" !in cookies || cookies["token"] == ""
    ensures g.BadToken? <==> "token" in cookies && cookies["token"] != "" && verify(cookies["token"]).None?
    ensures g.Verified? ==> "token" in cookies && verify(cookies["token"]) == Some(g.claims)
  {
    if "token" !in cookies || cookies["token"] == "" then NoToken
    else match verify(cookies["token"])
      case None => BadToken
      case Some(c) => Verified(c)
  }

  datatype SameSite = Strict | Lax | NoRestriction

  /** The options object passed to `response.cookies.set(name, value, options)`. */
  datatype CookieOptions = CookieOptions(httpOnly: bool, secure: bool, sameSite: SameSite, maxAge: int, path: string)

  datatype Cookie = Cookie(value: string, options: CookieOptions)

  /** A `NextResponse.json({ message }, { status })` whose cookies the handler then sets. */
  class Response {
    const status: nat
    const message: string
    var cookies: map<string, Cookie>

    constructor Json(message: string, status: nat)
      ensures this.status == status && this.message == message && cookies == map[]
    {
      this.status := status;
      this.message := message;
      cookies := map[];
    }

    /** `response.cookies.set(name, value, options)`: replaces any cookie of that name. */
    method SetCookie(name: string, value: string, options: CookieOptions)
      modifies this
      ensures cookies == old(cookies)[name := Cookie(value, options)]
    {
      cookies := cookies[name := Cookie(value, options)];
    }
  }
}
