/** `POST /api/auth/login`: the credential decision tree and the session cookie it sets. */
module Login {
  import opened Common
  import opened Http
  import opened Accounts

  /** The fields destructured from the JSON body. */
  datatype LoginBody = LoginBody(email: Option<string>, password: Option<string>)

  /** `bcrypt.compare(plain, hash)`; the hashing library is not part of this model. */
  type PasswordCheck = (string, string) -> bool

  /** The outcome of the credential checks: a refusal with its status and message, or the user. */
  datatype Decision = Refused(status: nat, message: string) | Granted(user: User)

  const InvalidCredentials: string := "Invalid email or password"

  /** Seven days, in seconds: the session cookie's `maxAge`. */
  const SessionMaxAge: int := 7 * 24 * 60 * 60

  /** The credential checks, in the route's order. `body` is `None` when `req.json()` throws,
      which the route's `catch` turns into 500. */
  function Decide(users: seq<User>, body: Option<LoginBody>, compare: PasswordCheck): (d: Decision)
    ensures body.None? ==> d == Refused(500, "Internal Server Error")
    ensures body.Some? && (!Truthy(body.value.email) || !Truthy(body.value.password)) ==>
      d == Refused(400, "Email and password are required")
    ensures d.Granted? ==>
      && body.Some? && Truthy(body.value.email) && Truthy(body.value.password)
      && d.user.email == body.value.email.value
      && FindByEmail(users, body.value.email.value) == Some(d.user)
      && compare(body.value.password.value, d.user.password)
    ensures d.Refused? && d.status == 401 ==> d.message == InvalidCredentials
    ensures d.Refused? ==> d.status in {400, 401, 500}
  {
    match body
    case None => Refused(500, "Internal Server Error")
    case Some(b) =>
      if !Truthy(b.email) || !Truthy(b.password) then
        Refused(400, "Email and password are required")
      else
        match FindByEmail(users, b.email.value)
        case None => Refused(401, InvalidCredentials)
        case Some(u) =>
          if !compare(b.password.value, u.password) then Refused(401, InvalidCredentials)
          else Granted(u)
  }

  /** The options of the cookie set on success: HTTP-only, `SameSite=Lax`, path "/", seven
      days, secure only in production. */
  function SessionCookieOptions(production: bool): (o: CookieOptions)
    ensures o.httpOnly && o.sameSite == Lax && o.path == "/" && o.secure == production
    ensures o.maxAge == 604800
  {
    CookieOptions(true, production, Lax, SessionMaxAge, "/")
  }

  /** `POST /api/auth/login`. A refusal carries no cookie; success signs `{ id, email }` of the
      matched user and sets it as the `token` cookie. */
  method HandleLogin(users: seq<User>, body: Option<LoginBody>, compare: PasswordCheck, sign: Signer, production: bool)
    returns (res: Response)
    ensures fresh(res)
    ensures Decide(users, body, compare).Refused? ==>
      && res.status == Decide(users, body, compare).status
      && res.message == Decide(users, body, compare).message
      && res.cookies == map[]
    ensures Decide(users, body, compare).Granted? ==>
      var u := Decide(users, body, compare).user;
      && res.status == 200 && res.message == "Login successful"
      && res.cookies == map["token" := Cookie(sign(Claims(u.id, u.email)), SessionCookieOptions(production))]
  {
    var d := Decide(users, body, compare);
    if d.Refused? {
      res := new Response.Json(d.message, d.status);
    } else {
      var token := sign(Claims(d.user.id, d.user.email));
      res := new Response.Json("Login successful", 200);
      res.SetCookie("token", token, SessionCookieOptions(production));
    }
  }

  /** Missing fields are refused before the user collection is searched or a password
      compared: the decision is the same for any collection and any comparison. */
  lemma MissingFieldsCheckedFirst(users: seq<User>, others: seq<User>, body: LoginBody,
                                  compare: PasswordCheck, otherCompare: PasswordCheck)
    requires !Truthy(body.email) || !Truthy(body.password)
    ensures Decide(users, Some(body), compare) == Decide(others, Some(body), otherCompare)
                                               == Refused(400, "Email and password are required")
  {
  }

  /** An unknown email is refused with 401. */
  lemma UnknownEmailRefused(users: seq<User>, body: LoginBody, compare: PasswordCheck)
    requires Truthy(body.email) && Truthy(body.password)
    requires forall i :: 0 <= i < |users| ==> users[i].email != body.email.value
    ensures Decide(users, Some(body), compare) == Refused(401, InvalidCredentials)
  {
  }

  /** A wrong password for a known email is refused exactly as an unknown email is, so the
      reply does not reveal whether the email is registered. */
  lemma WrongPasswordLooksLikeUnknownEmail(users: seq<User>, strangers: seq<User>, body: LoginBody,
                                           compare: PasswordCheck)
    requires Truthy(body.email) && Truthy(body.password)
    requires FindByEmail(users, body.email.value).Some?
    requires !compare(body.password.value, FindByEmail(users, body.email.value).value.password)
    requires forall i :: 0 <= i < |strangers| ==> strangers[i].email != body.email.value
    ensures Decide(users, Some(body), compare) == Decide(strangers, Some(body), compare)
  {
  }

  /** Success happens exactly when the first user with that email has a matching password. */
  lemma GrantedIff(users: seq<User>, body: LoginBody, compare: PasswordCheck)
    requires Truthy(body.email) && Truthy(body.password)
    ensures Decide(users, Some(body), compare).Granted? <==>
      exists k :: 0 <= k < |users| && users[k].email == body.email.value
                  && (forall j :: 0 <= j < k ==> users[j].email != body.email.value)
                  && compare(body.password.value, users[k].password)
  {
    var e := body.email.value;
    var r := FindByEmail(users, e);
    if r.Some? {
      var k :| 0 <= k < |users| && users[k] == r.value && r.value.email == e
               && forall j :: 0 <= j < k ==> users[j].email != e;
    }
  }
}
