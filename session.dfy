/** `GET /api/v1/auth/me`: reports whether the caller is logged in. */
module Session {
  import opened Common
  import opened Http
  import opened Accounts

  /** The JSON reply: status, optional message, the `loggedIn` flag and the optional user. */
  datatype SessionReply = SessionReply(status: nat, message: Option<string>, loggedIn: bool, user: Option<PublicUser>)

  /** `GET /api/v1/auth/me` over the user collection `users`. Verification runs inside the
      route's `try`, so a token that fails verification lands in the generic `catch`. */
  function WhoAmI(users: seq<User>, cookies: RequestCookies, verify: Verifier): (r: SessionReply)
    ensures r.loggedIn <==> r.status == 200
    ensures r.user.Some? <==> r.loggedIn
    ensures Authenticate(cookies, verify).NoToken? ==> r == SessionReply(401, Some("Unauthorized"), false, None)
    ensures Authenticate(cookies, verify).BadToken? ==> r == SessionReply(500, Some("Internal Server Error"), false, None)
    ensures Authenticate(cookies, verify).Verified? ==>
      var id := Authenticate(cookies, verify).claims.id;
      && (r.status == 404 <==> forall i :: 0 <= i < |users| ==> users[i].id != id)
      && (r.status == 404 ==> r == SessionReply(404, Some("User not found"), false, None))
      && (r.status != 404 ==> r.status == 200 && r.loggedIn)
    ensures r.loggedIn ==>
      && Authenticate(cookies, verify).Verified? && r.message == None
      && r.user.value.id == Authenticate(cookies, verify).claims.id
      && exists u :: u in users && r.user.value == WithoutPassword(u)
  {
    match Authenticate(cookies, verify)
    case NoToken => SessionReply(401, Some("Unauthorized"), false, None)
    case BadToken => SessionReply(500, Some("Internal Server Error"), false, None)
    case Verified(c) =>
      match FindById(users, c.id)
      case None => SessionReply(404, Some("User not found"), false, None)
      case Some(u) => SessionReply(200, None, true, Some(WithoutPassword(u)))
  }

  /** The reply never depends on a stored password hash: two collections that differ only in
      their hashes get the same reply. */
  lemma WhoAmIIgnoresPasswords(users: seq<User>, others: seq<User>, cookies: RequestCookies, verify: Verifier)
    requires SameButPasswords(users, others)
    ensures WhoAmI(users, cookies, verify) == WhoAmI(others, cookies, verify)
  {
    if Authenticate(cookies, verify).Verified? {
      FindByIdIgnoresPasswords(users, others, Authenticate(cookies, verify).claims.id);
    }
  }

  /** A request without a token is answered before the collection is read: the reply is the
      same whatever the collection holds. */
  lemma NoTokenIgnoresUsers(users: seq<User>, others: seq<User>, cookies: RequestCookies, verify: Verifier)
    requires Authenticate(cookies, verify).NoToken?
    ensures WhoAmI(users, cookies, verify) == WhoAmI(others, cookies, verify)
  {
  }
}
