/** How the pieces fit together across requests: the login cookie carries the user's identity
    for seven days, logout ends the session at once, a new task is listed first, and the
    dashboard never sends a title the server would refuse. */
module Scenarios {
  import opened Common
  import opened Text
  import opened Seqs
  import opened Http
  import opened UserAgent
  import opened Accounts
  import opened TaskStore
  import opened TaskList
  import opened Login
  import opened Logout
  import opened Session
  import opened Dashboard

  /** The round trip the JWT library provides, assumed of the signer the login route uses and
      the verifier the other routes use (same secret): a signed token is a non-empty string
      that verifies to the payload it was signed over. A `Verifier` has no clock, so this also
      assumes the token itself does not expire while the cookie lives. */
  ghost predicate SoundCodec(sign: Signer, verify: Verifier) {
    forall c :: sign(c) != "" && verify(sign(c)) == Some(c)
  }

  /** The cookie a successful login sets for user `u`. */
  function LoginCookie(u: User, sign: Signer, production: bool): Cookie {
    Cookie(sign(Claims(u.id, u.email)), SessionCookieOptions(production))
  }

  /** For seven days after login, every request the browser sends passes the guard as the
      logged-in user; in production only over HTTPS, since the cookie is then secure-only. */
  lemma LoginCookieIdentifiesUser(jar: CookieStore, u: User, sign: Signer, verify: Verifier,
                                  production: bool, now: int, t: int, secureChannel: bool)
    requires SoundCodec(sign, verify)
    requires now <= t <= now + SessionMaxAge
    requires secureChannel || !production
    ensures Authenticate(Send(Receive(jar, "token", LoginCookie(u, sign, production), now), t, secureChannel), verify)
         == Verified(Claims(u.id, u.email))
  {
    var c := LoginCookie(u, sign, production);
    var sent := Send(Receive(jar, "token", c, now), t, secureChannel);
    assert sent["token"] == c.value;
  }

  /** After seven days the browser stops sending the login cookie, so the guard sees no token. */
  lemma LoginCookieExpires(jar: CookieStore, u: User, sign: Signer, verify: Verifier,
                           production: bool, now: int, t: int, secureChannel: bool)
    requires t > now + SessionMaxAge
    ensures Authenticate(Send(Receive(jar, "token", LoginCookie(u, sign, production), now), t, secureChannel), verify) == NoToken
  {
    var sent := Send(Receive(jar, "token", LoginCookie(u, sign, production), now), t, secureChannel);
    assert "token" !in sent;
  }

  /** In production the login cookie is secure-only, so a plain-HTTP request never carries it
      and the guard sees no token, whatever the time. */
  lemma LoginCookieNeedsHttps(jar: CookieStore, u: User, sign: Signer, verify: Verifier, now: int, t: int)
    ensures Authenticate(Send(Receive(jar, "token", LoginCookie(u, sign, true), now), t, false), verify) == NoToken
  {
    var sent := Send(Receive(jar, "token", LoginCookie(u, sign, true), now), t, false);
    assert "token" !in sent;
  }

  /** Logging in and then listing: the list holds exactly the logged-in user's tasks. */
  lemma LoginThenList(jar: CookieStore, u: User, sign: Signer, verify: Verifier,
                      production: bool, now: int, t: int, secureChannel: bool, tasks: seq<Task>, x: Task)
    requires SoundCodec(sign, verify)
    requires now <= t <= now + SessionMaxAge
    requires secureChannel || !production
    requires x in tasks
    ensures var r := List(tasks, Send(Receive(jar, "token", LoginCookie(u, sign, production), now), t, secureChannel), verify);
      && r.status == 200
      && (x in r.payload.value <==> x.owner == u.id)
  {
    var cookies := Send(Receive(jar, "token", LoginCookie(u, sign, production), now), t, secureChannel);
    LoginCookieIdentifiesUser(jar, u, sign, verify, production, now, t, secureChannel);
    if x.owner == u.id {
      ListAllOwnTasks(tasks, cookies, verify, x);
    } else if x in List(tasks, cookies, verify).payload.value {
      ListOnlyOwnTasks(tasks, cookies, verify, x);
    }
  }

  /** The logout cookie expires at once (section 5.2.2 of RFC 6265: a `Max-Age` of 0 is the
      earliest representable time), so from then on no token is sent, whatever the browser
      held before, and the session check answers 401. */
  lemma LogoutEndsSession(jar: CookieStore, production: bool, now: int, t: int, secureChannel: bool,
                          verify: Verifier, users: seq<User>)
    ensures var sent := Send(Receive(jar, "token", Cookie("", ClearingCookieOptions(production)), now), t, secureChannel);
      && Authenticate(sent, verify) == NoToken
      && WhoAmI(users, sent, verify).status == 401
  {
    var after := Receive(jar, "token", Cookie("", ClearingCookieOptions(production)), now);
    assert "token" !in after;
  }

  /** A task created at a time later than every stored task heads its owner's list. */
  lemma NewTaskListedFirst(tasks: seq<Task>, t: Task, cookies: RequestCookies, verify: Verifier)
    requires Authenticate(cookies, verify).Verified? && Authenticate(cookies, verify).claims.id == t.owner
    requires forall i :: 0 <= i < |tasks| ==> tasks[i].createdAt < t.createdAt
    ensures |List(tasks + [t], cookies, verify).payload.value| > 0
    ensures List(tasks + [t], cookies, verify).payload.value[0] == t
  {
    var all := tasks + [t];
    ListAllOwnTasks(all, cookies, verify, t);
    var listed := List(all, cookies, verify).payload.value;
    var k :| 0 <= k < |listed| && listed[k] == t;
    var first := listed[0];
    var owned := Filter(all, OwnedBy(t.owner));
    assert first in multiset(owned);
    assert first in all;
  }

  /** Every request the dashboard sends passes the create route's title check: the page and
      the route apply the same trim test. */
  lemma DashboardTitlePassesServerCheck(req: CreateRequest)
    requires !IsBlank(req.title)
    ensures !TitleMissing(CreateBody(Some(req.title), Some(req.description)).title)
  {
  }
}
