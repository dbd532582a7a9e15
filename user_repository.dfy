/**
 * The local account table. An account row carries the national ID (as a number and, as the
 * username, as the text it was registered with), the employee number, the password hash and a role.
 */
module UserRepository {
  import opened Wrappers
  import opened PersonRepository

  datatype Role = ROLE_USER | ROLE_ADMIN

  datatype User = User(id: int, tckiml: int, username: string, psicno: int, password: string, role: Role)

  /**
   * `findByTckiml`: the account with that national ID. Nothing in the core keeps national IDs
   * unique, so several accounts may match, which the finder reports as an error.
   */
  function FindByTckiml(users: seq<User>, tckiml: int): (r: Lookup<User>)
    ensures r.NotFound? <==> forall u :: u in users ==> u.tckiml != tckiml
    ensures r.Found? ==> r.value in users && r.value.tckiml == tckiml
    ensures r.Found? ==> forall u :: u in users && u.tckiml == tckiml ==> u == r.value
    ensures r.NonUnique? ==> r.count >= 2
  {
    Unique(Filter(users, (u: User) => u.tckiml == tckiml))
  }

  /** Two different accounts with one national ID make the finder report a non-unique result. */
  lemma TwoMatchesAreNonUnique(users: seq<User>, x: User, y: User)
    requires x in users && y in users && x != y && x.tckiml == y.tckiml
    ensures FindByTckiml(users, x.tckiml).NonUnique?
  {
  }
}
