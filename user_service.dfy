/**
 * Account lifecycle over the `users` collection: authentication lookup,
 * registration, profile update, the three status transitions, role checks and
 * the default-administrator bootstrap. Exceptions become `Err` results; the
 * clock is the parameter `now`.
 */
module UserService {
  import opened Wrappers
  import opened Strings
  import opened UserEntity
  import opened UserRepository

  /** The exceptions the service raises, by cause. */
  datatype ServiceError =
    | UserNotFound(username: string)       // UsernameNotFoundException
    | AccountInactive(username: string)    // UsernameNotFoundException
    | DuplicateUsername(username: string)  // IllegalArgumentException
    | DuplicateEmail(email: string)        // IllegalArgumentException
    | UnknownId(id: Id)                    // IllegalArgumentException
  {
    /** Raised as `IllegalArgumentException` (the other two as `UsernameNotFoundException`). */
    predicate IsIllegalArgument() {
      DuplicateUsername? || DuplicateEmail? || UnknownId?
    }

    /** The exception's message. */
    function Message(): string {
      match this
      case UserNotFound(u) => "Usuário não encontrado: " + u
      case AccountInactive(u) => "Conta inativa: " + u
      case DuplicateUsername(u) => "Nome de usuário já existe: " + u
      case DuplicateEmail(e) => "Email já existe: " + e
      case UnknownId(id) => "Usuário não encontrado: " + NatToString(id)
    }
  }

  /** What an operation returns or raises, and the collection afterwards. */
  datatype Outcome<+T> = Outcome(result: Result<T, ServiceError>, repo: UserStore)

  /** The fields `updateUser` reads from its `User` argument; null is `None`. */
  datatype UserPatch = UserPatch(
    fullName: Option<string>,
    email: Option<string>,
    password: Option<string>,
    roles: Option<set<string>>)

  const DefaultRole := "USER"
  const AdminRole := "ADMIN"
  const AdminUsername := "admin"
  const AdminEmail := "admin@securelogin.com"
  const AdminFullName := "Administrador do Sistema"

  /** Declared by the service but read by no code path: there is no automatic lockout. */
  const MaxLoginAttempts := 5
  const LockTimeMinutes := 30

  /**
   * What the service keeps true of the collection: the repository invariant, and
   * every stored user has a (possibly empty) role set, since `createUser` always
   * sets one and `updateUser` only ever replaces it by a non-null set.
   */
  ghost predicate Consistent(repo: UserStore) {
    repo.Valid() && forall k :: k in repo.users ==> repo.users[k].roles.Some?
  }

  // ---------------------------------------------------------------------------
  // Lookups
  // ---------------------------------------------------------------------------

  /**
   * `loadUserByUsername`: the stored user when it exists and is active; a missing
   * user and an inactive one both raise `UsernameNotFoundException`.
   */
  function LoadUserByUsername(repo: UserStore, username: string): (r: Result<User, ServiceError>)
    requires repo.Valid()
    ensures r.Ok? <==> exists k :: k in repo.users && repo.users[k].username == username && repo.users[k].isActive
    ensures r.Ok? ==> r.value in repo.users.Values && r.value.username == username
    ensures r.Err? && repo.ExistsByUsername(username) ==> r.error == AccountInactive(username)
    ensures r.Err? && !repo.ExistsByUsername(username) ==> r.error == UserNotFound(username)
  {
    match repo.FindByUsername(username)
    case None => Err(UserNotFound(username))
    case Some(user) => if !user.isActive then Err(AccountInactive(username)) else Ok(user)
  }

  /** `hasRole`: false for an unknown username, role-set membership otherwise. */
  function HasRole(repo: UserStore, username: string, role: string): (r: bool)
    requires Consistent(repo)
    ensures r <==> exists k :: k in repo.users && repo.users[k].username == username
                              && role in repo.users[k].roles.value
  {
    match repo.FindByUsername(username)
    case None => false
    case Some(user) => assert user.roles.Some?; role in user.roles.value
  }

  // ---------------------------------------------------------------------------
  // The operations that write, as functions of the collection before the call
  // ---------------------------------------------------------------------------

  /** The record `createUser` hands to `save` for the candidate `c`. */
  function Prepared(c: User, now: int): User {
    c.(roles := if c.roles.None? || c.roles.value == {} then Some({DefaultRole}) else c.roles,
       password := Some(Encode(c.password)),
       createdAt := Some(now),
       updatedAt := Some(now))
  }

  /** `createUser`: username checked first, then email; otherwise one save. */
  function CreateUserOutcome(repo: UserStore, c: User, now: int): Outcome<User> {
    if repo.ExistsByUsername(c.username) then Outcome(Err(DuplicateUsername(c.username)), repo)
    else if repo.ExistsByEmail(c.email) then Outcome(Err(DuplicateEmail(c.email)), repo)
    else
      var (repo', saved) := repo.Save(Prepared(c, now));
      Outcome(Ok(saved), repo')
  }

  /** The record `updateUser` saves for the stored user `u`. */
  function Patched(u: User, p: UserPatch, now: int): User {
    u.(fullName := if p.fullName.Some? then p.fullName else u.fullName,
       email := if p.email.Some? then p.email.value else u.email,
       password := if p.password.Some? && p.password.value != "" then Some(Encode(p.password)) else u.password,
       roles := if p.roles.Some? then p.roles else u.roles,
       updatedAt := Some(now))
  }

  /** A new email that differs from the current one and is already taken. */
  predicate EmailClash(repo: UserStore, id: Id, p: UserPatch)
    requires id in repo.users
  {
    p.email.Some? && p.email.value != repo.users[id].email && repo.ExistsByEmail(p.email.value)
  }

  /** `updateUser`. */
  function UpdateUserOutcome(repo: UserStore, id: Id, p: UserPatch, now: int): Outcome<User> {
    if id !in repo.users then Outcome(Err(UnknownId(id)), repo)
    else if EmailClash(repo, id, p) then Outcome(Err(DuplicateEmail(p.email.value)), repo)
    else
      var (repo', saved) := repo.Save(Patched(repo.users[id], p, now));
      Outcome(Ok(saved), repo')
  }

  /** `activateUser` (`active` true) and `deactivateUser` (`active` false). */
  function SetActiveOutcome(repo: UserStore, id: Id, active: bool, now: int): Outcome<()> {
    if id !in repo.users then Outcome(Err(UnknownId(id)), repo)
    else Outcome(Ok(()), repo.Save(repo.users[id].(isActive := active, updatedAt := Some(now))).0)
  }

  /** `unlockUser`: note that `updatedAt` is not refreshed. */
  function UnlockOutcome(repo: UserStore, id: Id): Outcome<()> {
    if id !in repo.users then Outcome(Err(UnknownId(id)), repo)
    else Outcome(Ok(()), repo.Save(repo.users[id].(isAccountNonLocked := true)).0)
  }

  /** The user `createDefaultAdminIfNotExists` builds; it never sets a password. */
  function AdminCandidate(): User {
    Unsaved(AdminUsername, AdminEmail).(fullName := Some(AdminFullName), roles := Some({AdminRole, DefaultRole}))
  }

  /** `createDefaultAdminIfNotExists`: nothing when "admin" exists, else `createUser`. */
  function BootstrapOutcome(repo: UserStore, now: int): Outcome<()> {
    if repo.ExistsByUsername(AdminUsername) then Outcome(Ok(()), repo)
    else
      var o := CreateUserOutcome(repo, AdminCandidate(), now);
      Outcome(if o.result.Ok? then Ok(()) else Err(o.result.error), o.repo)
  }

  // ---------------------------------------------------------------------------
  // What the operations promise
  // ---------------------------------------------------------------------------

  /**
   * `createUser` rejects a taken username before looking at the email, rejects a
   * taken email, and in both cases writes nothing.
   */
  lemma CreateUserRejectsDuplicates(repo: UserStore, c: User, now: int)
    ensures var o := CreateUserOutcome(repo, c, now);
      && (repo.ExistsByUsername(c.username) ==> o == Outcome(Err(DuplicateUsername(c.username)), repo))
      && (!repo.ExistsByUsername(c.username) && repo.ExistsByEmail(c.email) ==>
            o == Outcome(Err(DuplicateEmail(c.email)), repo))
      && (o.result.Err? ==> o.repo == repo && o.result.error.IsIllegalArgument())
  {
  }

  /**
   * A successful `createUser` saves exactly one record: the candidate with the
   * default role set when it had none (or an empty one), the encoded password in
   * place of the plaintext, both timestamps at `now`, and nothing else changed.
   * The collection stays consistent.
   */
  lemma CreateUserStores(repo: UserStore, c: User, now: int)
    requires Consistent(repo)
    requires !repo.ExistsByUsername(c.username) && !repo.ExistsByEmail(c.email)
    ensures var o := CreateUserOutcome(repo, c, now);
      && o.result.Ok? && Consistent(o.repo)
      && var v := o.result.value;
      && o.repo.users == repo.users[v.id.value := v]
      && (c.id.None? ==> v.id.value !in repo.users)
      && v.roles == (if c.roles.None? || c.roles.value == {} then Some({DefaultRole}) else c.roles)
      && v.password == Some(Encode(c.password))
      && (c.password.Some? ==> v.password.value != c.password.value)
      && v.createdAt == Some(now) && v.updatedAt == Some(now)
      && v.username == c.username && v.email == c.email && v.fullName == c.fullName
      && v.isActive == c.isActive && v.isAccountNonExpired == c.isAccountNonExpired
      && v.isAccountNonLocked == c.isAccountNonLocked
      && v.isCredentialsNonExpired == c.isCredentialsNonExpired
      && v.lastLogin == c.lastLogin
  {
    var u := Prepared(c, now);
    SavePreservesValid(repo, u);
  }

  /** `createUser` keeps the collection consistent whatever happens. */
  lemma CreateUserKeepsConsistent(repo: UserStore, c: User, now: int)
    requires Consistent(repo)
    ensures Consistent(CreateUserOutcome(repo, c, now).repo)
  {
    if !repo.ExistsByUsername(c.username) && !repo.ExistsByEmail(c.email) {
      CreateUserStores(repo, c, now);
    }
  }

  /**
   * `updateUser`: an unknown id or a clash on a changed email raises and writes
   * nothing; otherwise the stored user is replaced in place: the full name if
   * given, the email if given, the password re-encoded if given and non-empty,
   * the roles whenever given (even an empty set), `updatedAt` always; the id,
   * username, status flags and the other accounts are untouched.
   */
  lemma UpdateUserEffect(repo: UserStore, id: Id, p: UserPatch, now: int)
    requires Consistent(repo)
    ensures var o := UpdateUserOutcome(repo, id, p, now);
      && Consistent(o.repo)
      && (id !in repo.users ==> o == Outcome(Err(UnknownId(id)), repo))
      && (id in repo.users && EmailClash(repo, id, p) ==> o == Outcome(Err(DuplicateEmail(p.email.value)), repo))
      && (id in repo.users && !EmailClash(repo, id, p) ==>
            && o.result.Ok?
            && var old_u, v := repo.users[id], o.result.value;
            && o.repo.users == repo.users[id := v]
            && v.id == Some(id) && v.username == old_u.username
            && v.fullName == (if p.fullName.Some? then p.fullName else old_u.fullName)
            && v.email == (if p.email.Some? then p.email.value else old_u.email)
            && v.password == (if p.password.Some? && p.password.value != "" then Some(Encode(p.password)) else old_u.password)
            && v.roles == (if p.roles.Some? then p.roles else old_u.roles)
            && v.updatedAt == Some(now)
            && v.isActive == old_u.isActive && v.isAccountNonExpired == old_u.isAccountNonExpired
            && v.isAccountNonLocked == old_u.isAccountNonLocked
            && v.isCredentialsNonExpired == old_u.isCredentialsNonExpired
            && v.createdAt == old_u.createdAt && v.lastLogin == old_u.lastLogin)
  {
    UpdateKeepsConsistent(repo, id, p, now);
  }

  /** `updateUser` keeps the collection consistent: a new email is only taken when no one else has it. */
  lemma UpdateKeepsConsistent(repo: UserStore, id: Id, p: UserPatch, now: int)
    requires Consistent(repo)
    ensures Consistent(UpdateUserOutcome(repo, id, p, now).repo)
  {
    if id in repo.users && !EmailClash(repo, id, p) {
      var u := Patched(repo.users[id], p, now);
      assert u.id == Some(id);
      forall k | k in repo.users && Some(k) != u.id ensures repo.users[k].email != u.email {
        if p.email.Some? && p.email.value != repo.users[id].email {
          assert !repo.ExistsByEmail(p.email.value);
        }
      }
      SavePreservesValid(repo, u);
    }
  }

  /** Saving a changed copy of a stored user under its own id keeps the collection consistent. */
  lemma ReplaceKeepsConsistent(repo: UserStore, u: User)
    requires Consistent(repo) && u.id.Some? && u.id.value in repo.users
    requires u.username == repo.users[u.id.value].username && u.email == repo.users[u.id.value].email
    requires u.roles.Some?
    ensures Consistent(repo.Save(u).0)
    ensures repo.Save(u).0.users == repo.users[u.id.value := u]
  {
    SavePreservesValid(repo, u);
  }

  /**
   * `deactivateUser` and `activateUser`: an unknown id is an error and writes
   * nothing; a known one gets the flag set and `updatedAt` refreshed, and nothing
   * else changes.
   */
  lemma SetActiveTransition(repo: UserStore, id: Id, active: bool, now: int)
    requires Consistent(repo)
    ensures var o := SetActiveOutcome(repo, id, active, now);
      && Consistent(o.repo)
      && (id !in repo.users ==> o == Outcome(Err(UnknownId(id)), repo))
      && (id in repo.users ==>
            && o.result.Ok?
            && o.repo.users == repo.users[id := repo.users[id].(isActive := active, updatedAt := Some(now))])
  {
    if id in repo.users {
      ReplaceKeepsConsistent(repo, repo.users[id].(isActive := active, updatedAt := Some(now)));
    }
  }

  /**
   * `unlockUser`: an unknown id is an error and writes nothing; a known one is
   * marked non-locked and nothing else changes, `updatedAt` included.
   */
  lemma UnlockTransition(repo: UserStore, id: Id)
    requires Consistent(repo)
    ensures var o := UnlockOutcome(repo, id);
      && Consistent(o.repo)
      && (id !in repo.users ==> o == Outcome(Err(UnknownId(id)), repo))
      && (id in repo.users ==>
            && o.result.Ok?
            && o.repo.users == repo.users[id := repo.users[id].(isAccountNonLocked := true)])
  {
    if id in repo.users {
      ReplaceKeepsConsistent(repo, repo.users[id].(isAccountNonLocked := true));
    }
  }

  /**
   * `updateUser` can leave an account with no role at all: a patch carrying an
   * empty role set replaces the stored one.
   */
  lemma UpdateCanEmptyRoles(repo: UserStore, id: Id, now: int)
    requires Consistent(repo) && id in repo.users
    ensures var o := UpdateUserOutcome(repo, id, UserPatch(None, None, None, Some({})), now);
      o.result.Ok? && o.repo.users[id].roles == Some({})
  {
  }

  /**
   * Calling `createDefaultAdminIfNotExists` a second time changes nothing: either
   * the first call created "admin", or it failed on a taken email and the second
   * fails the same way.
   */
  lemma {:induction false} BootstrapIdempotent(repo: UserStore, now1: int, now2: int)
    requires Consistent(repo)
    ensures var r1 := BootstrapOutcome(repo, now1).repo;
      BootstrapOutcome(r1, now2).repo == r1
  {
    if !repo.ExistsByUsername(AdminUsername) {
      var o := CreateUserOutcome(repo, AdminCandidate(), now1);
      if o.result.Ok? {
        SaveMakesUsernameExist(repo, Prepared(AdminCandidate(), now1));
      }
    }
  }

  /**
   * After a successful bootstrap the collection holds exactly one "admin", with
   * roles ADMIN and USER, and its stored password is the encoding of no
   * password, which no plaintext password encodes to.
   */
  lemma BootstrappedAdmin(repo: UserStore, now: int, plain: string)
    requires Consistent(repo) && !repo.ExistsByUsername(AdminUsername)
    requires BootstrapOutcome(repo, now).result.Ok?
    ensures var r := BootstrapOutcome(repo, now).repo;
      && Consistent(r)
      && (exists k :: k in r.users && r.users[k].username == AdminUsername)
      && var admin := r.FindByUsername(AdminUsername).value;
      && admin.roles == Some({AdminRole, DefaultRole})
      && admin.password == Some(Encode(None))
      && admin.password.value != Encode(Some(plain))
  {
    CreateUserStores(repo, AdminCandidate(), now);
    var r := BootstrapOutcome(repo, now).repo;
    SaveMakesUsernameExist(repo, Prepared(AdminCandidate(), now));
    if Encode(None) == Encode(Some(plain)) { EncodeInjective(None, Some(plain)); }
  }

  /**
   * No service method checks the constraints declared on `User`: a one-letter
   * username with no password is accepted by `createUser`.
   */
  lemma CreateUserIgnoresDeclaredConstraints(now: int)
    ensures var c := Unsaved("x", "x@example.com");
      && !SatisfiesDeclaredConstraints(c)
      && CreateUserOutcome(Empty, c, now).result.Ok?
  {
  }

  // ---------------------------------------------------------------------------
  // The service object
  // ---------------------------------------------------------------------------

  class UserService {
    /** The `users` collection behind the injected `UserRepository`. */
    var repo: UserStore

    ghost predicate Valid()
      reads this
    {
      Consistent(repo)
    }

    constructor (repo: UserStore)
      requires Consistent(repo)
      ensures Valid() && this.repo == repo
    {
      this.repo := repo;
    }

    method CreateUser(user: User, now: int) returns (r: Result<User, ServiceError>)
      requires Valid()
      modifies this
      ensures Valid()
      ensures Outcome(r, repo) == CreateUserOutcome(old(repo), user, now)
    {
      CreateUserKeepsConsistent(repo, user, now);
      if repo.ExistsByUsername(user.username) {
        return Err(DuplicateUsername(user.username));
      }
      if repo.ExistsByEmail(user.email) {
        return Err(DuplicateEmail(user.email));
      }
      var u := user;
      if u.roles.None? || u.roles.value == {} {
        u := u.(roles := Some({DefaultRole}));
      }
      u := u.(password := Some(Encode(u.password)));
      u := u.(createdAt := Some(now));
      u := u.(updatedAt := Some(now));
      var saved;
      repo, saved := repo.Save(u).0, repo.Save(u).1;
      r := Ok(saved);
    }

    method UpdateUser(id: Id, userDetails: UserPatch, now: int) returns (r: Result<User, ServiceError>)
      requires Valid()
      modifies this
      ensures Valid()
      ensures Outcome(r, repo) == UpdateUserOutcome(old(repo), id, userDetails, now)
    {
      UpdateKeepsConsistent(repo, id, userDetails, now);
      var found := repo.FindById(id);
      if found.None? {
        return Err(UnknownId(id));
      }
      var user := found.value;
      if userDetails.email.Some? && userDetails.email.value != user.email && repo.ExistsByEmail(userDetails.email.value) {
        return Err(DuplicateEmail(userDetails.email.value));
      }
      user := Patched(user, userDetails, now);
      var saved;
      repo, saved := repo.Save(user).0, repo.Save(user).1;
      r := Ok(saved);
    }

    method DeactivateUser(id: Id, now: int) returns (r: Result<(), ServiceError>)
      requires Valid()
      modifies this
      ensures Valid()
      ensures Outcome(r, repo) == SetActiveOutcome(old(repo), id, false, now)
    {
      SetActiveTransition(repo, id, false, now);
      var found := repo.FindById(id);
      if found.None? {
        return Err(UnknownId(id));
      }
      var user := found.value;
      user := user.(isActive := false);
      user := user.(updatedAt := Some(now));
      repo := repo.Save(user).0;
      r := Ok(());
    }

    method ActivateUser(id: Id, now: int) returns (r: Result<(), ServiceError>)
      requires Valid()
      modifies this
      ensures Valid()
      ensures Outcome(r, repo) == SetActiveOutcome(old(repo), id, true, now)
    {
      SetActiveTransition(repo, id, true, now);
      var found := repo.FindById(id);
      if found.None? {
        return Err(UnknownId(id));
      }
      var user := found.value;
      user := user.(isActive := true);
      user := user.(updatedAt := Some(now));
      repo := repo.Save(user).0;
      r := Ok(());
    }

    method UnlockUser(id: Id) returns (r: Result<(), ServiceError>)
      requires Valid()
      modifies this
      ensures Valid()
      ensures Outcome(r, repo) == UnlockOutcome(old(repo), id)
    {
      UnlockTransition(repo, id);
      var found := repo.FindById(id);
      if found.None? {
        return Err(UnknownId(id));
      }
      var user := found.value;
      user := user.(isAccountNonLocked := true);
      repo := repo.Save(user).0;
      r := Ok(());
    }

    method CreateDefaultAdminIfNotExists(now: int) returns (r: Result<(), ServiceError>)
      requires Valid()
      modifies this
      ensures Valid()
      ensures Outcome(r, repo) == BootstrapOutcome(old(repo), now)
    {
      r := Ok(());
      if !repo.ExistsByUsername(AdminUsername) {
        var admin := Unsaved(AdminUsername, AdminEmail);
        admin := admin.(fullName := Some(AdminFullName));
        admin := admin.(roles := Some({AdminRole, DefaultRole}));
        var created := CreateUser(admin, now);
        if created.Err? {
          r := Err(created.error);
        }
      }
    }
  }
}
