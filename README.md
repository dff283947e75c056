# Planixa: a verified model of the task and session routes

Planixa is a Next.js task manager. A user logs in with email and password and receives
an HTTP-only `token` cookie holding a signed JWT over `{ id, email }`. With that cookie
the user can:

- create tasks and list their own tasks, newest first;
- read and update their profile;
- ask whether they are logged in;
- log out, which clears the cookie.

Two client pages keep a local `tasks` array in sync with those routes:

- the tasks page, with search and a description filter;
- the dashboard, with a create form.

This project models that core in Dafny, on the same structure as the source.

- **Authenticated routes.** Every one starts with the same guard: read the `token`
  cookie, then verify it (`Http.Authenticate`).
  - Task routes: `TaskStore`, `TaskList`.
  - Profile and session: `Profile`, `Session`.
- **Login and logout** (`Login`, `Logout`) read no token. Login sets the `token` cookie;
  logout clears it.
- Each route is one function or method whose contract lists every status code and
  message it can return, in the order the route checks them.
- **Mutable state.** Where the source changes state, the model is a class whose
  methods modify fields:
  - the task collection (`TaskStore.TaskCollection`);
  - the user collection (`Profile.UserCollection`);
  - the response's cookie jar (`Http.Response`);
  - the two pages' React state (`TasksPage.TasksPage`, `Dashboard.Dashboard`).
- **Libraries.** The JWT library and bcrypt have no code here. They are function-valued
  parameters: `Verifier`, `Signer` and `PasswordCheck`.
- **The browser.** Its side of the cookie is modelled in `UserAgent`, after section 5 of
  RFC 6265: `Max-Age` expiry (section 5.2.2), storage with the `Secure` flag (section
  5.3), and sending, where a secure-only cookie goes out only over HTTPS (section 5.4).
- **Cross-request scenarios.** `Scenarios` combines the pieces, for example "after
  logout, no token is sent and the session check answers 401". Where a scenario needs
  the JWT round trip, it takes it as an explicit hypothesis (`SoundCodec`), never as an
  axiom.

Two behaviours of the code are worth noting:

- `GET /api/v1/auth/me` verifies the token inside its `try`. An invalid token therefore
  ends in the generic `catch` and gets 500 "Internal Server Error", not 401
  (`Session.WhoAmI`).
- `PUT /api/v1/me`: the route writes the new email without checking it. In the model's
  collection, which has no unique index on `email`, one user can then take another's
  email (`Profile.UpdateAllowsDuplicateEmail`). Should two users share an email, login
  picks the first of them in collection order (`Login.GrantedIff`).

Other modelling choices:

- **Sequences, not maps.** Collections are sequences in the database's natural order, so
  `findOne` and `findById` mean "the first match".
- **Falsy fields.** An empty cookie or field is falsy in JavaScript, exactly as an absent
  one (`Common.Truthy`).
- **Null entries in the pages.** The client lists may hold `null` entries.
  - The callbacks that read `t._id` throw on such an entry: delete and update on the tasks
    page, and update on the dashboard. The model reports this in a `threw` result and
    leaves the list unchanged.
  - The dashboard's delete uses `t?._id`, which is null-safe.

## Model

| member | source | states |
|---|---|---|
| Http.Authenticate | app/api/tasks/create/route.js:9-19 | No token exactly when the `token` cookie is absent or empty. A bad token exactly when a non-empty token fails verification. Otherwise the claims are the verifier's result for that token. |
| Http.Response.SetCookie | app/api/auth/login/route.js:41-47 | The response's cookie jar afterwards is the old jar with that name bound to the new value and options; nothing else changes. |
| Accounts.FindByIdIgnoresPasswords | app/api/v1/me/route.js:28 | `findById(id).select("-password")` does not depend on the hashes: on two collections that differ only in passwords, it finds a user in both or in neither, and the same user once the password is left out. |
| Accounts.FindById | app/api/v1/me/route.js:28 | `None` exactly when no user has the id. Otherwise the result is a user with that id, and no earlier user has it. |
| Accounts.FindByEmail | app/api/auth/login/route.js:19 | `None` exactly when no user has the email. Otherwise the result is the first user with that email. |
| Seqs.FirstMatch | app/api/auth/login/route.js:19 | The index of the first element satisfying the predicate, or the length when none does. |
| Seqs.FirstMatchAgrees | app/api/v1/me/route.js:70-74 | Sequences that agree position by position on two predicates have their first match at the same index. |
| Text.Trim | app/api/tasks/create/route.js:23 | `trim()` returns a contiguous piece of the input that neither starts nor ends with ECMAScript white space. Everything before and after that piece is white space. It is empty exactly when the input is blank. |
| Text.ToLower | app/tasks/page.jsx:50-53 | `toLowerCase()` keeps the length and lower-cases each character in its place. |
| Text.ToLowerIdempotent | app/tasks/page.jsx:50-53 | Lower-casing twice is lower-casing once. |
| Text.Contains | app/tasks/page.jsx:50-53 | `includes`: every string includes itself, and no string includes a longer one. |
| Text.ContainsEmpty | app/tasks/page.jsx:50 | Every string includes the empty string. |
| Seqs.Filter | app/tasks/page.jsx:46 | `filter` keeps only elements satisfying the predicate, all of them from the input, and misses none that satisfies it. |
| Seqs.FilterIsSubsequence | app/tasks/page.jsx:46 | A filter result is an order-preserving subsequence of its input, witnessed by an increasing index embedding. |
| Seqs.FilterKeepsCounts | app/tasks/page.jsx:46 | `filter` keeps every element that satisfies the predicate as often as the input holds it. |
| Seqs.FilterSplits | app/tasks/page.jsx:55-56 | Filtering by a predicate and by its negation yields, together, every element exactly as often as the input holds it. |
| TaskStore.TitleMissing | app/api/tasks/create/route.js:23 | `!title \|\| !title.trim()` holds exactly for an absent title or a blank one (empty or white space only). |
| TaskStore.TaskCollection.Insert | app/api/tasks/create/route.js:30-34 | Appends exactly one task with the given title, description, owner and time, and an id no stored task has. Unique ids are preserved. |
| TaskStore.TaskCollection.Create | app/api/tasks/create/route.js:9-42 | Covers four outcomes. (1) No token: 401 "Unauthorized". (2) Bad token: 401 "Invalid token". (3) After auth, an absent or blank title: 400 "Title is required". In these three cases the collection is unchanged. (4) Otherwise 201 "Task created successfully" with the task, which is appended as the only change. Its owner is the token's id, its title is exactly as submitted, its description is the submitted one or "", and its id is fresh. |
| TaskList.InsertNewestFirst | app/api/tasks/list/route.js:21 | Inserting into a newest-first sequence keeps it newest-first and adds exactly that task, as a multiset. |
| TaskList.SortNewestFirst | app/api/tasks/list/route.js:21 | `sort({ createdAt: -1 })`: the result is ordered by non-increasing `createdAt` and is a permutation of the input. |
| TaskList.List | app/api/tasks/list/route.js:9-22 | No token gives 401 "Unauthorized" and a bad token 401 "Invalid token". Otherwise 200 with a newest-first permutation of exactly the caller's tasks. |
| TaskList.ListOnlyOwnTasks | app/api/tasks/list/route.js:21 | Every listed task is owned by the caller. |
| TaskList.ListAllOwnTasks | app/api/tasks/list/route.js:21 | Every task of the caller in the collection is listed. |
| TaskList.ListNewerBeforeOlder | app/api/tasks/list/route.js:21 | Of two listed tasks with different creation times, the newer comes first. |
| TaskList.ListNoTasks | app/api/tasks/list/route.js:21-22 | A caller owning no task gets 200 with an empty list. |
| TaskList.ListRejectionIgnoresStore | app/api/tasks/list/route.js:9-19 | A rejected request gets 401 and a reply that does not depend on the collection, so no query matters. |
| Login.Decide | app/api/auth/login/route.js:9-32 | An unreadable body gives 500, and a missing email or password gives 400 "Email and password are required". Every 401 carries "Invalid email or password". Success implies both fields are present, the user is the first with that email, and the password check passed. |
| Login.SessionCookieOptions | app/api/auth/login/route.js:41-47 | The session cookie is HTTP-only, `SameSite=Lax`, on path "/", secure exactly in production, with `maxAge` 604800 (seven days). |
| Login.HandleLogin | app/api/auth/login/route.js:7-56 | A refusal carries the decision's status and message and sets no cookie. Success returns 200 "Login successful" and sets exactly one cookie, `token`: the signature over `{ id, email }` of the matched user, with the session options. |
| Login.MissingFieldsCheckedFirst | app/api/auth/login/route.js:11-16 | With a field missing, the answer is 400 whatever the collection and whatever the password check. |
| Login.UnknownEmailRefused | app/api/auth/login/route.js:19-25 | An email no user has is refused with 401 "Invalid email or password". |
| Login.WrongPasswordLooksLikeUnknownEmail | app/api/auth/login/route.js:26-32 | A wrong password for a known email is answered exactly as an unknown email is. |
| Login.GrantedIff | app/api/auth/login/route.js:19-33 | Login succeeds exactly when the first user with that email in collection order has a password the check accepts. |
| Logout.ClearingCookieOptions | app/api/auth/logout/route.js:10-16 | The clearing cookie's options are the session cookie's with `maxAge` 0, and nothing else differs. |
| Logout.HandleLogout | app/api/auth/logout/route.js:4-17 | Reads no request and needs no token. Returns 200 "Logout Successful" with exactly one cookie, `token`, set to "" with the clearing options. |
| Profile.GetProfile | app/api/v1/me/route.js:7-37 | No token gives 401 "Not authenticated" and a bad token 401 "Invalid token". 404 "User not found" exactly when no user has the token's id. Otherwise 200 with that user, without the password. |
| Profile.GetProfileIgnoresPasswords | app/api/v1/me/route.js:7-37 | Two collections that differ only in password hashes get the same reply, so the reply never reveals a hash. |
| Profile.Rename | app/api/v1/me/route.js:70-74 | Same length, and ids and passwords unchanged. Users with another id are unchanged. The user with that id gets the new name and email. |
| Profile.UserCollection.UpdateProfile | app/api/v1/me/route.js:40-87 | Three checks run in order: 401 "Not authenticated", 401 "Invalid token", then 400 "Name and email are required" (the body is only read after the guard). Then 404 "User not found" when the id is unknown. All four leave the collection unchanged. Otherwise 200 "Profile updated successfully" with the new public profile, and the collection is the renamed one. |
| Profile.RenameThenFind | app/api/v1/me/route.js:70-74 | After the update, looking up the id finds the same user with the new name and email and the old password hash. |
| Profile.UpdateAllowsDuplicateEmail | app/api/v1/me/route.js:70-74 | The route writes the new email without checking it: for any collection, the user with the id can take the email of any other user, and two distinct users then have that email. |
| Session.WhoAmI | app/api/v1/auth/me/route.js:6-25 | `loggedIn` exactly when the status is 200, and a user is returned exactly then. No token gives 401 "Unauthorized". A bad token gives 500 "Internal Server Error", not 401. 404 exactly when no user has the token's id. Otherwise 200 with `loggedIn` true and that user. A returned user has the token's id and no password. |
| Session.WhoAmIIgnoresPasswords | app/api/v1/auth/me/route.js:6-25 | Two collections that differ only in password hashes get the same reply, so the reply never reveals a hash. |
| Session.NoTokenIgnoresUsers | app/api/v1/auth/me/route.js:7-10 | Without a token the answer does not depend on the user collection. |
| UserAgent.MaxAgeExpiry | app/api/auth/logout/route.js:14 | Section 5.2.2 of RFC 6265: `Max-Age` of 0 or less means the earliest time, otherwise `now + Max-Age`, which is in the future. |
| UserAgent.Receive | app/api/auth/logout/route.js:10-16 | A cookie with `maxAge` of 0 or less removes the stored cookie of that name. Any other cookie is stored with its expiry and its `Secure` flag. Cookies of other names are untouched, and no other name is added. |
| UserAgent.Send | app/api/tasks/create/route.js:9 | A request carries exactly the unexpired stored cookies, leaving out secure-only ones on a plain-HTTP request, with their values. |
| ClientTasks.WithoutId | app/dashboard/page.js:103 | Removes every entry with that `_id`. Keeps every other entry, including null entries, as often as it occurs, as an order-preserving subsequence. |
| ClientTasks.ReplaceId | app/tasks/page.jsx:97-99 | Same length. Entries with that `_id` become the returned task, and every other entry stays in its place. |
| ClientTasks.WithoutAbsentId | app/tasks/page.jsx:75 | Removing an id no entry has leaves the list unchanged. |
| ClientTasks.ReplaceAbsentId | app/tasks/page.jsx:97-99 | Replacing an id no entry has leaves the list unchanged. |
| ClientTasks.ReplaceKeepsOthers | app/dashboard/page.js:121 | When the returned task keeps its `_id`, the update leaves the rest of the list exactly as it was. |
| TasksPage.MatchesSearch | app/tasks/page.jsx:49-53 | A task matches only a search no longer than its title or its description. |
| TasksPage.Shown | app/tasks/page.jsx:46-58 | A null entry is never shown, and a shown task matches the search. "with-desc" shows only tasks with a description and "no-desc" only tasks without one. Any other filter value shows exactly the matching tasks. |
| TasksPage.FilteredTasks | app/tasks/page.jsx:46-59 | No null entries, an order-preserving subsequence of `tasks`. Every shown task passes the search and the filter. Every task that passes is shown, as often as `tasks` holds it. |
| TasksPage.EmptySearchMatches | app/tasks/page.jsx:49-53 | The empty search matches every task. |
| TasksPage.EmptySearchShowsAll | app/tasks/page.jsx:46-58 | With the empty search and "all", a list without null entries is shown whole. |
| TasksPage.OtherFilterIsAll | app/tasks/page.jsx:55-58 | Any filter value other than "with-desc" and "no-desc" shows what "all" shows. |
| TasksPage.DescriptionFiltersPartition | app/tasks/page.jsx:55-58 | "with-desc" and "no-desc" are the "all" result narrowed by the description test. Together they hold every task "all" shows, each exactly once. |
| TasksPage.SearchIgnoresCase | app/tasks/page.jsx:49-53 | Searching for a text and for its lower-cased form shows the same tasks. |
| TasksPage.TasksPage.HandleDelete | app/tasks/page.jsx:62-79 | A failed or non-ok response leaves the list unchanged. An ok response removes the id's entries. If the list holds a null entry, the callback throws and the list is unchanged. |
| TasksPage.TasksPage.HandleUpdate | app/tasks/page.jsx:82-105 | A failed or non-ok response leaves the list unchanged. An ok response replaces the id's entries by the returned task. If the list holds a null entry, the callback throws and the list is unchanged. |
| Dashboard.Dashboard.HandleCreateTask | app/dashboard/page.js:58-93 | A blank title sets "Task title cannot be empty", sends nothing and changes nothing else. Otherwise it sends the untrimmed title and the description. A thrown fetch sets "Something went wrong". A non-ok reply or a missing task sets the reply's message or "Failed to create task", and the list and inputs are unchanged. Success prepends the task and clears both inputs and the error. |
| Dashboard.Dashboard.HandleDeleteTask | app/dashboard/page.js:96-106 | An ok response removes the id's entries (null-safe). Anything else leaves the list unchanged. |
| Dashboard.Dashboard.HandleUpdateTask | app/dashboard/page.js:109-124 | An ok response replaces the id's entries by the returned task, or throws on a null entry, leaving the list unchanged. Anything else leaves the list unchanged. |
| Scenarios.LoginCookieIdentifiesUser | app/api/auth/login/route.js:33-47 | Assuming the JWT round trip and no token expiry within seven days, every request for seven days after login passes the guard as exactly the logged-in user's `{ id, email }`. In production this holds only over HTTPS. |
| Scenarios.LoginCookieNeedsHttps | app/api/auth/login/route.js:41-47 | In production the cookie is secure-only, so a plain-HTTP request carries no token and the guard sees none. |
| Scenarios.LoginCookieExpires | app/api/auth/login/route.js:45 | After seven days the browser no longer sends the cookie, and the guard sees no token. |
| Scenarios.LoginThenList | app/api/tasks/list/route.js:9-22 | With the same assumptions, and over HTTPS in production, after login the task list answers 200 and holds a stored task exactly when the logged-in user owns it. |
| Scenarios.LogoutEndsSession | app/api/auth/logout/route.js:10-16 | After logout no token is sent, whatever the browser held, and the session check answers 401. |
| Scenarios.NewTaskListedFirst | app/api/tasks/list/route.js:21 | A task created later than every stored task heads its owner's list. |
| Scenarios.DashboardTitlePassesServerCheck | app/dashboard/page.js:62-65 | Any title the dashboard sends passes the create route's title check. |

## Left out

- Token signing and verification are parameters, not the JWT algorithm (RFC 7519). The
  same holds for password hashing and comparison. Their code lives in `jsonwebtoken`,
  `bcryptjs` and `lib/jwt`, which are not part of this model. Token expiry inside the JWT
  is whatever the verifier decides.
- Database access (`connectDB`, the mongoose models) is not modelled. Connection failures
  and query errors are left out, and with them the routes' generic 500 on those paths:
  - the login route's `catch` is modelled only for an unreadable body;
  - in the logout route, only its success path is modelled.
- `TaskStore.TaskCollection.Create`: ids come from a counter, not Mongo's ObjectId
  generation. The creation time is a parameter `now` (the clock).
- A JSON body that cannot be parsed is modelled only for login. Elsewhere it is an
  exception thrown outside any `try`, which Next.js turns into its own error response.
  JSON fields of a non-string type are not modelled. Every field is an optional string.
- `Profile.UpdateAllowsDuplicateEmail`: the model assumes no unique index on `User.email`.
  The `User` schema is not part of this model. With such an index, `findByIdAndUpdate`
  would throw, and since this PUT has no `try`, the request would fail with a server
  error instead.
- `Text.ToLower` lower-cases ASCII letters only; JavaScript's Unicode case mapping is not
  modelled. `Text.Trim` uses the full ECMAScript white-space set.
- `TaskList.SortNewestFirst` keeps ties in collection order. MongoDB does not promise any
  order among tasks with equal `createdAt`. The contracts therefore state only
  "newest-first and a permutation", which every tie order satisfies.
- The pages' `loading`/`creating` flags, toasts, routing, rendering and animation are not
  modelled. The page-load fetch (`loadTasks`), `setSearch` and `setFilter` are plain
  fetch or assignment and are not modelled either.
- `async`/`await`: every handler is one sequential step, so interleavings are not
  modelled. After a React updater throws, the model leaves the list as it was; what React
  does next with the error is not modelled.
- The task delete, update and get-one routes, signup and the profile page are not part of
  this model. The pages call those routes, but their replies enter only as the `Fetched`
  parameter.
- `UserAgent`: domain and path matching (sections 5.1.3 and 5.1.4 of RFC 6265) are not
  modelled. Every cookie here has path "/" and one host.
- `UserAgent.Send`: the `SameSite` attribute is not part of RFC 6265, and its rules are not
  modelled. Every request is taken to be same-site, since the pages fetch their own
  origin. `Scenarios.LoginCookieIdentifiesUser` and `Scenarios.LoginThenList` rest on this.
- `Scenarios.LoginCookieIdentifiesUser`: the `Verifier` parameter has no clock. The
  seven-day conclusion therefore also assumes that the JWT does not expire sooner; the
  expiry `lib/jwt` sets is not part of this model.
- The `secure` flag depends on `NODE_ENV`. It enters as the `production` parameter.
