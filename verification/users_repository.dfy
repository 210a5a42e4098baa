/** The user table and the `UserRepository` finders the user services call.
    Users are soft-deleted: every finder skips a row whose `deletedAt` is
    set, and returns the first live row with the value asked for. */
module UserRepository {
  import opened Common
  import opened Tables

  /** A user row; the nullable columns are options. */
  datatype User = User(
    userId: int,
    username: Option<string>,
    email: Option<string>,
    phone: Option<string>,
    password: Option<string>,
    deletedAt: Option<int>)

  /** Not soft-deleted. */
  predicate Live(u: User)
  {
    u.deletedAt.None?
  }

  /** `findByEmail`: the first live user with that email. */
  function FindByEmail(users: seq<User>, email: string): (r: Option<nat>)
    ensures r.Some? ==> r.value < |users| && users[r.value].email == Some(email) && Live(users[r.value])
    ensures r.None? <==> forall i :: 0 <= i < |users| ==> !(users[i].email == Some(email) && Live(users[i]))
  {
    FirstWhere(users, (u: User) => u.email == Some(email) && Live(u))
  }

  /** `findByPhone`: the first live user with that phone. */
  function FindByPhone(users: seq<User>, phone: string): (r: Option<nat>)
    ensures r.Some? ==> r.value < |users| && users[r.value].phone == Some(phone) && Live(users[r.value])
    ensures r.None? <==> forall i :: 0 <= i < |users| ==> !(users[i].phone == Some(phone) && Live(users[i]))
  {
    FirstWhere(users, (u: User) => u.phone == Some(phone) && Live(u))
  }

  /** `findByUsername`: the first live user with that username. */
  function FindByUsername(users: seq<User>, username: string): (r: Option<nat>)
    ensures r.Some? ==> r.value < |users| && users[r.value].username == Some(username) && Live(users[r.value])
    ensures r.None? <==> forall i :: 0 <= i < |users| ==> !(users[i].username == Some(username) && Live(users[i]))
  {
    FirstWhere(users, (u: User) => u.username == Some(username) && Live(u))
  }

  /** `findByUser_Id`: the live user with that id. */
  function FindById(users: seq<User>, userId: int): (r: Option<nat>)
    ensures r.Some? ==> r.value < |users| && users[r.value].userId == userId && Live(users[r.value])
    ensures r.None? <==> forall i :: 0 <= i < |users| ==> !(users[i].userId == userId && Live(users[i]))
  {
    FirstWhere(users, (u: User) => u.userId == userId && Live(u))
  }

  /** A soft-deleted user is found by none of the finders. */
  lemma FindersSkipDeleted(users: seq<User>, i: nat, s: string)
    requires i < |users| && !Live(users[i])
    ensures FindByEmail(users, s) != Some(i) && FindByPhone(users, s) != Some(i)
    ensures FindByUsername(users, s) != Some(i) && FindById(users, users[i].userId) != Some(i)
  {
  }
}
