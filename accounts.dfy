/** The user records the routes read through the `User` model, and the two lookups they run.
    The mongoose schema itself is not part of this model; the collection is a sequence in
    the database's natural order, so "the first match" is well defined. */
module Accounts {
  import opened Common
  import opened Http
  import opened Seqs

  /** A stored user; `password` holds the bcrypt hash. */
  datatype User = User(id: UserId, name: string, email: string, password: string)

  /** A user as `.select("-password")` returns it. */
  datatype PublicUser = PublicUser(id: UserId, name: string, email: string)

  /** `.select("-password")`: the same user with the password hash left out. */
  function WithoutPassword(u: User): PublicUser {
    PublicUser(u.id, u.name, u.email)
  }

  function UserIdOf(u: User): UserId {
    u.id
  }

  /** Two collections that differ at most in their password hashes. */
  ghost predicate SameButPasswords(users: seq<User>, others: seq<User>) {
    && |users| == |others|
    && forall i :: 0 <= i < |users| ==> WithoutPassword(users[i]) == WithoutPassword(others[i])
  }

  function HasId(id: UserId): User -> bool {
    (u: User) => u.id == id
  }

  function HasEmail(email: string): User -> bool {
    (u: User) => u.email == email
  }

  /** `User.findById(id)`: the first user with that id, or `None` when there is none. */
  function FindById(users: seq<User>, id: UserId): (r: Option<User>)
    ensures r.None? <==> forall i :: 0 <= i < |users| ==> users[i].id != id
    ensures r.Some? ==> exists k :: 0 <= k < |users| && users[k] == r.value && r.value.id == id
                                    && forall j :: 0 <= j < k ==> users[j].id != id
  {
    var k := FirstMatch(users, HasId(id));
    if k < |users| then Some(users[k]) else None
  }

  /** `findById(id).select("-password")` does not depend on the password hashes: on two
      collections that differ only there it finds a user in both or in neither, and the same
      user once the password is left out. */
  lemma FindByIdIgnoresPasswords(users: seq<User>, others: seq<User>, id: UserId)
    requires SameButPasswords(users, others)
    ensures FindById(users, id).None? <==> FindById(others, id).None?
    ensures FindById(users, id).Some? ==>
      WithoutPassword(FindById(users, id).value) == WithoutPassword(FindById(others, id).value)
  {
    assert forall i :: 0 <= i < |users| ==> users[i].id == others[i].id by {
      forall i | 0 <= i < |users| ensures users[i].id == others[i].id {
        assert WithoutPassword(users[i]).id == WithoutPassword(others[i]).id;
      }
    }
    FirstMatchAgrees(users, HasId(id), others, HasId(id));
  }

  /** `User.findOne({ email })`: the first user with exactly that email, or `None`. */
  function FindByEmail(users: seq<User>, email: string): (r: Option<User>)
    ensures r.None? <==> forall i :: 0 <= i < |users| ==> users[i].email != email
    ensures r.Some? ==> exists k :: 0 <= k < |users| && users[k] == r.value && r.value.email == email
                                    && forall j :: 0 <= j < k ==> users[j].email != email
  {
    var k := FirstMatch(users, HasEmail(email));
    if k < |users| then Some(users[k]) else None
  }
}
