/** `POST /api/auth/logout`: a reply whose `token` cookie is emptied and expires at once. */
module Logout {
  import opened Http
  import opened Login

  /** The options of the clearing cookie: the session cookie's, with `maxAge` 0. */
  function ClearingCookieOptions(production: bool): (o: CookieOptions)
    ensures o == SessionCookieOptions(production).(maxAge := 0)
  {
    CookieOptions(true, production, Lax, 0, "/")
  }

  /** `POST /api/auth/logout`: needs no token and reads nothing from the request. */
  method HandleLogout(production: bool) returns (res: Response)
    ensures fresh(res)
    ensures res.status == 200 && res.message == "Logout Successful"
    ensures res.cookies == map["token" := Cookie("", ClearingCookieOptions(production))]
  {
    res := new Response.Json("Logout Successful", 200);
    res.SetCookie("token", "", ClearingCookieOptions(production));
  }
}
