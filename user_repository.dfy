/**
 * The `users` collection and the derived finders the services use. The store is
 * a map from id to document plus the next id it will hand out.
 */
module UserRepository {
  import opened Wrappers
  import opened UserEntity

  datatype UserStore = UserStore(users: map<Id, User>, nextId: nat) {

    /**
     * The collection's invariant: each document carries its own key as id, keys
     * stay below the id generator, and the unique indexes on `username` and
     * `email` hold (at most one account per username and per email).
     */
    ghost predicate Valid() {
      && (forall k :: k in users ==> k < nextId && users[k].id == Some(k))
      && (forall k1, k2 :: k1 in users && k2 in users && users[k1].username == users[k2].username ==> k1 == k2)
      && (forall k1, k2 :: k1 in users && k2 in users && users[k1].email == users[k2].email ==> k1 == k2)
    }

    /** `existsByUsername`: some stored user has this username. */
    predicate ExistsByUsername(username: string) {
      exists k :: k in users && users[k].username == username
    }

    /** `existsByEmail`: some stored user has this email. */
    predicate ExistsByEmail(email: string) {
      exists k :: k in users && users[k].email == email
    }

    /** `findById`. */
    function FindById(id: Id): (r: Option<User>)
      ensures r.Some? <==> id in users
      ensures r.Some? ==> r.value == users[id]
    {
      if id in users then Some(users[id]) else None
    }

    /** `findByUsername`: the one user with this username, or empty. */
    function FindByUsername(username: string): (r: Option<User>)
      requires Valid()
      ensures r.Some? <==> ExistsByUsername(username)
      ensures r.Some? ==> r.value.username == username && r.value in users.Values
    {
      if ExistsByUsername(username) then
        var k :| k in users && users[k].username == username; Some(users[k])
      else None
    }

    /** `findByEmail`: the one user with this email, or empty. */
    function FindByEmail(email: string): (r: Option<User>)
      requires Valid()
      ensures r.Some? <==> ExistsByEmail(email)
      ensures r.Some? ==> r.value.email == email && r.value in users.Values
    {
      if ExistsByEmail(email) then
        var k :| k in users && users[k].email == email; Some(users[k])
      else None
    }

    /** `findByIsActiveTrue`: the active users (the list's order is not modelled). */
    function FindByIsActiveTrue(): (r: set<User>)
      ensures forall u :: u in r <==> u in users.Values && u.isActive
    {
      set k | k in users && users[k].isActive :: users[k]
    }

    /** `findByRole`: `{ roles: { $in: [role] } }` matches users whose role set holds `role`. */
    function FindByRole(role: string): (r: set<User>)
      ensures forall u :: u in r <==> u in users.Values && u.roles.Some? && role in u.roles.value
    {
      set k | k in users && users[k].roles.Some? && role in users[k].roles.value :: users[k]
    }

    /**
     * `save`: an upsert. A user without an id is inserted under a fresh id; one
     * with an id replaces whatever is stored under it. Returns the stored copy.
     */
    function Save(u: User): (r: (UserStore, User))
      ensures r.1 == u.(id := r.1.id) && r.1.id.Some?
      ensures u.id.Some? ==> r.1.id == u.id
      ensures Valid() && u.id.None? ==> r.1.id.value !in users
      ensures r.0.users == users[r.1.id.value := r.1]
    {
      var k := if u.id.Some? then u.id.value else nextId;
      var saved := u.(id := Some(k));
      (UserStore(users[k := saved], if nextId <= k then k + 1 else nextId), saved)
    }
  }

  /** The empty collection. */
  const Empty: UserStore := UserStore(map[], 0)

  /**
   * Saving keeps the collection valid when no OTHER document already has the
   * saved username or email: a fresh insert, or a replacement of the document
   * that held them.
   */
  lemma SavePreservesValid(s: UserStore, u: User)
    requires s.Valid()
    requires forall k :: k in s.users && Some(k) != u.id ==> s.users[k].username != u.username
    requires forall k :: k in s.users && Some(k) != u.id ==> s.users[k].email != u.email
    ensures s.Save(u).0.Valid()
  {
    var (t, saved) := s.Save(u);
    var k := saved.id.value;
    forall k1 | k1 in t.users ensures k1 < t.nextId && t.users[k1].id == Some(k1) {
      if k1 != k { assert k1 in s.users; }
    }
  }

  /** After a save, the saved username exists. */
  lemma SaveMakesUsernameExist(s: UserStore, u: User)
    ensures s.Save(u).0.ExistsByUsername(u.username)
  {
    var (t, saved) := s.Save(u);
    assert saved.id.value in t.users && t.users[saved.id.value].username == u.username;
  }
}
