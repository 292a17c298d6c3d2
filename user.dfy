/**
 * The `User` document: an account with a unique username and email, an encoded
 * password, four independent status flags, a role set and three timestamps.
 */
module UserEntity {
  import opened Wrappers

  /** Document ids, assigned by the store when a user is first saved. */
  type Id = nat

  /**
   * Nullable Java fields are `Option`s. `roles` is a `Set<String>`: no duplicates,
   * no order. Timestamps are integer seconds.
   */
  datatype User = User(
    id: Option<Id>,
    username: string,
    email: string,
    password: Option<string>,
    fullName: Option<string>,
    isActive: bool,
    isAccountNonExpired: bool,
    isAccountNonLocked: bool,
    isCredentialsNonExpired: bool,
    roles: Option<set<string>>,
    createdAt: Option<int>,
    updatedAt: Option<int>,
    lastLogin: Option<int>)

  /** All four status flags hold: the state a new user starts in. */
  predicate StartsEnabled(u: User) {
    u.isActive && u.isAccountNonExpired && u.isAccountNonLocked && u.isCredentialsNonExpired
  }

  /**
   * The no-argument constructor followed by `setUsername` and `setEmail`: field
   * defaults make the four flags true; everything else is unset.
   */
  function Unsaved(username: string, email: string): (u: User)
    ensures StartsEnabled(u)
    ensures u.username == username && u.email == email
    ensures u.id.None? && u.password.None? && u.fullName.None? && u.roles.None?
    ensures u.createdAt.None? && u.updatedAt.None? && u.lastLogin.None?
  {
    User(None, username, email, None, None, true, true, true, true, None, None, None, None)
  }

  /** The five-argument constructor, run at time `now`. */
  function NewUser(username: string, email: string, password: Option<string>,
                   fullName: Option<string>, roles: Option<set<string>>, now: int): (u: User)
    ensures StartsEnabled(u)
    ensures u.username == username && u.email == email && u.password == password
    ensures u.fullName == fullName && u.roles == roles
    ensures u.createdAt == Some(now) && u.updatedAt == Some(now)
    ensures u.id.None? && u.lastLogin.None?
  {
    Unsaved(username, email).(password := password, fullName := fullName, roles := roles,
                               createdAt := Some(now), updatedAt := Some(now))
  }

  /** `@NotBlank`: present, and not empty once Java's `trim` drops the characters up to U+0020. */
  predicate NotBlank(s: Option<string>) {
    s.Some? && exists i :: 0 <= i < |s.value| && s.value[i] > ' '
  }

  /** `@Email`, simplified: a non-empty local part, one '@', a non-empty domain, no space or control character. */
  predicate WellFormedEmail(s: string) {
    (exists i :: 0 < i < |s| - 1 && s[i] == '@')
    && (forall i, j :: 0 <= i < j < |s| && s[i] == '@' ==> s[j] != '@')
    && (forall i :: 0 <= i < |s| ==> s[i] > ' ')
  }

  /** The bean-validation constraints declared on the fields of `User`. */
  predicate SatisfiesDeclaredConstraints(u: User) {
    && NotBlank(Some(u.username)) && 3 <= |u.username| <= 50
    && NotBlank(Some(u.email)) && WellFormedEmail(u.email)
    && NotBlank(u.password) && |u.password.value| >= 6
    && NotBlank(u.fullName) && 2 <= |u.fullName.value| <= 100
  }

  /** The password encoder, modelled by a reversible tagging that is injective and never the identity. */
  function Encode(raw: Option<string>): (h: string)
    ensures raw.Some? ==> h != raw.value
    ensures |h| >= 1 && h[0] == '$'
  {
    match raw
    case None => "$"
    case Some(p) => "$:" + p
  }

  /** Distinct raw passwords (an absent one included) never share an encoding. */
  lemma EncodeInjective(a: Option<string>, b: Option<string>)
    requires Encode(a) == Encode(b)
    ensures a == b
  {
    match a
    case None =>
    case Some(p) =>
      assert b.Some?;
      assert p == Encode(a)[2..] == Encode(b)[2..] == b.value;
  }
}
