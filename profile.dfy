/** `/api/v1/me`: `GET` returns the caller's profile, `PUT` overwrites its name and email. */
module Profile {
  import opened Common
  import opened Http
  import opened Accounts
  import opened Seqs

  /** The fields destructured from the `PUT` body. */
  datatype ProfileBody = ProfileBody(name: Option<string>, email: Option<string>)

  /** `GET /api/v1/me` over the user collection `users`. */
  function GetProfile(users: seq<User>, cookies: RequestCookies, verify: Verifier): (r: Reply<PublicUser>)
    ensures Authenticate(cookies, verify).NoToken? ==> r == Reply(401, Some("Not authenticated"), None)
    ensures Authenticate(cookies, verify).BadToken? ==> r == Reply(401, Some("Invalid token"), None)
    ensures Authenticate(cookies, verify).Verified? ==>
      var id := Authenticate(cookies, verify).claims.id;
      && (r.status == 404 <==> forall i :: 0 <= i < |users| ==> users[i].id != id)
      && (r.status == 404 ==> r == Reply(404, Some("User not found"), None))
      && (r.status != 404 ==> r.status == 200 && r.message == None && r.payload.Some?
                              && r.payload.value.id == id
                              && exists u :: u in users && r.payload.value == WithoutPassword(u))
  {
    match Authenticate(cookies, verify)
    case NoToken => Reply(401, Some("Not authenticated"), None)
    case BadToken => Reply(401, Some("Invalid token"), None)
    case Verified(c) =>
      match FindById(users, c.id)
      case None => Reply(404, Some("User not found"), None)
      case Some(u) => Reply(200, None, Some(WithoutPassword(u)))
  }

  /** The reply never depends on a stored password hash: two collections that differ only in
      their hashes get the same reply. */
  lemma GetProfileIgnoresPasswords(users: seq<User>, others: seq<User>, cookies: RequestCookies, verify: Verifier)
    requires SameButPasswords(users, others)
    ensures GetProfile(users, cookies, verify) == GetProfile(others, cookies, verify)
  {
    if Authenticate(cookies, verify).Verified? {
      FindByIdIgnoresPasswords(users, others, Authenticate(cookies, verify).claims.id);
    }
  }

  /** The write `findByIdAndUpdate(id, { name, email })` performs: every user with that id gets
      the new name and email; ids, passwords and all other users stay as they were. */
  function Rename(users: seq<User>, id: UserId, name: string, email: string): (r: seq<User>)
    ensures |r| == |users|
    ensures forall i :: 0 <= i < |users| ==> r[i].id == users[i].id && r[i].password == users[i].password
    ensures forall i :: 0 <= i < |users| && users[i].id != id ==> r[i] == users[i]
    ensures forall i :: 0 <= i < |users| && users[i].id == id ==> r[i].name == name && r[i].email == email
  {
    seq(|users|, i requires 0 <= i < |users| =>
      if users[i].id == id then users[i].(name := name, email := email) else users[i])
  }

  /** The `User` collection as the profile update changes it. */
  class UserCollection {
    var users: seq<User>

    ghost predicate Valid()
      reads this
    {
      UniqueKeys(users, UserIdOf)
    }

    constructor (users: seq<User>)
      requires UniqueKeys(users, UserIdOf)
      ensures Valid() && this.users == users
    {
      this.users := users;
    }

    /** `PUT /api/v1/me`. The guard runs before the body is looked at; nothing is written on
        a rejection; the new email is written whether or not another user already has it. */
    method UpdateProfile(cookies: RequestCookies, verify: Verifier, body: ProfileBody) returns (r: Reply<PublicUser>)
      requires Valid()
      modifies this
      ensures Valid()
      ensures Authenticate(cookies, verify).NoToken? ==>
        r == Reply(401, Some("Not authenticated"), None) && users == old(users)
      ensures Authenticate(cookies, verify).BadToken? ==>
        r == Reply(401, Some("Invalid token"), None) && users == old(users)
      ensures Authenticate(cookies, verify).Verified? && (!Truthy(body.name) || !Truthy(body.email)) ==>
        r == Reply(400, Some("Name and email are required"), None) && users == old(users)
      ensures Authenticate(cookies, verify).Verified? && Truthy(body.name) && Truthy(body.email) ==>
        var id := Authenticate(cookies, verify).claims.id;
        && (FindById(old(users), id).None? ==>
              r == Reply(404, Some("User not found"), None) && users == old(users))
        && (FindById(old(users), id).Some? ==>
              && r == Reply(200, Some("Profile updated successfully"),
                            Some(PublicUser(id, body.name.value, body.email.value)))
              && users == Rename(old(users), id, body.name.value, body.email.value))
    {
      var g := Authenticate(cookies, verify);
      if g.NoToken? {
        return Reply(401, Some("Not authenticated"), None);
      }
      if g.BadToken? {
        return Reply(401, Some("Invalid token"), None);
      }
      if !Truthy(body.name) || !Truthy(body.email) {
        return Reply(400, Some("Name and email are required"), None);
      }
      var id := g.claims.id;
      if FindById(users, id).None? {
        return Reply(404, Some("User not found"), None);
      }
      users := Rename(users, id, body.name.value, body.email.value);
      r := Reply(200, Some("Profile updated successfully"), Some(PublicUser(id, body.name.value, body.email.value)));
    }
  }

  /** After a rename, the renamed user is found under its id with the new name and email and
      its old password hash. */
  lemma RenameThenFind(users: seq<User>, id: UserId, name: string, email: string)
    requires FindById(users, id).Some?
    ensures FindById(Rename(users, id, name, email), id)
         == Some(FindById(users, id).value.(name := name, email := email))
  {
    var r := Rename(users, id, name, email);
    FirstMatchAgrees(users, HasId(id), r, HasId(id));
  }

  /** No uniqueness check: the user `id` can take over the email of any other user `j`, and
      the collection then holds two distinct users with that email. */
  lemma UpdateAllowsDuplicateEmail(users: seq<User>, id: UserId, name: string, email: string, i: nat, j: nat)
    requires i < |users| && j < |users|
    requires users[i].id == id && users[j].id != id && users[j].email == email
    ensures var after := Rename(users, id, name, email);
            && i != j && after[i].id != after[j].id
            && after[i].email == email && after[j].email == email
  {
  }
}
