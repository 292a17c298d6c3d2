/**
 * `DashboardController`: the dashboard and profile pages of the signed-in user.
 * Both look the user up by name and fail when there is none; the dashboard adds
 * the user's five most recent successful logins and the 24-hour report.
 */
module DashboardController {
  import opened Wrappers
  import opened UserEntity
  import opened UserRepository
  import opened LoginAttemptEntity
  import opened LoginAttemptRepository
  import opened LoginAttemptService

  const DashboardView := "dashboard/index"
  const ProfileView := "dashboard/profile"
  const RecentLoginsShown := 5
  /** The message of the `RuntimeException` raised for an unknown user. */
  const UnknownUserMessage := "Usuário não encontrado"

  /** What `dashboard` puts in the model. */
  datatype DashboardPage = DashboardPage(
    view: string,
    user: User,
    recentLogins: seq<LoginAttempt>,
    securityReport: SecurityReport)

  /** What `profile` puts in the model. */
  datatype ProfilePage = ProfilePage(view: string, user: User)

  /** `recentLogins.subList(0, Math.min(5, recentLogins.size()))`. */
  function FirstFive(logins: seq<LoginAttempt>): (r: seq<LoginAttempt>)
    ensures |r| == if |logins| < RecentLoginsShown then |logins| else RecentLoginsShown
    ensures r == logins[..|r|]
  {
    logins[..if |logins| < RecentLoginsShown then |logins| else RecentLoginsShown]
  }

  /**
   * `dashboard` for the authenticated `username`, with the attempt log and the
   * clock. The user is looked up without regard to its active flag.
   */
  function Dashboard(repo: UserStore, log: seq<LoginAttempt>, username: string, now: int)
    : (r: Result<DashboardPage, string>)
    requires repo.Valid()
    ensures r.Err? <==> !repo.ExistsByUsername(username)
    ensures r.Err? ==> r.error == UnknownUserMessage
    ensures r.Ok? ==>
      && r.value.view == DashboardView
      && r.value.user in repo.users.Values && r.value.user.username == username
      && r.value.securityReport == GenerateSecurityReport(log, now)
  {
    match repo.FindByUsername(username)
    case None => Err(UnknownUserMessage)
    case Some(user) =>
      var recentLogins := GetSuccessfulLoginAttemptsByUsername(log, username);
      var securityReport := GenerateSecurityReport(log, now);
      Ok(DashboardPage(DashboardView, user, FirstFive(recentLogins), securityReport))
  }

  /** `profile` for the authenticated `username`. */
  function Profile(repo: UserStore, username: string): (r: Result<ProfilePage, string>)
    requires repo.Valid()
    ensures r.Err? <==> !repo.ExistsByUsername(username)
    ensures r.Err? ==> r.error == UnknownUserMessage
    ensures r.Ok? ==>
      && r.value.view == ProfileView
      && r.value.user in repo.users.Values && r.value.user.username == username
  {
    match repo.FindByUsername(username)
    case None => Err(UnknownUserMessage)
    case Some(user) => Ok(ProfilePage(ProfileView, user))
  }

  /**
   * Cutting a newest-first list to its first five keeps it newest first, and
   * whatever is cut off is no newer than anything kept.
   */
  lemma FirstFiveAreNewest(all: seq<LoginAttempt>)
    requires NewestFirst(all)
    ensures NewestFirst(FirstFive(all))
    ensures forall a, b :: a in all && a !in FirstFive(all) && b in FirstFive(all) ==> a.attemptTime <= b.attemptTime
  {
    var shown := FirstFive(all);
    forall a, b | a in all && a !in shown && b in shown ensures a.attemptTime <= b.attemptTime {
      var j :| 0 <= j < |all| && all[j] == a;
      var i :| 0 <= i < |shown| && shown[i] == b;
      assert all[i] == b;
    }
  }

  /**
   * The dashboard's recent logins are the first min(5, n) of the user's n
   * successful attempts, newest first: each is a successful attempt of that user,
   * and any successful attempt of the user left out is no newer than every one
   * shown.
   */
  lemma RecentLoginsAreNewestSuccesses(repo: UserStore, log: seq<LoginAttempt>, username: string, now: int)
    requires repo.Valid() && repo.ExistsByUsername(username)
    ensures var all := GetSuccessfulLoginAttemptsByUsername(log, username);
      var shown := Dashboard(repo, log, username, now).value.recentLogins;
      && |shown| == (if |all| < 5 then |all| else 5)
      && shown == all[..|shown|]
      && NewestFirst(shown)
      && (forall a :: a in shown ==> a in log && a.username == username && a.success)
      && (forall a, b ::
            a in log && a.username == username && a.success && a !in shown && b in shown ==>
            a.attemptTime <= b.attemptTime)
  {
    var all := GetSuccessfulLoginAttemptsByUsername(log, username);
    var shown := Dashboard(repo, log, username, now).value.recentLogins;
    assert shown == FirstFive(all);
    FirstFiveAreNewest(all);
    forall a | a in shown ensures a in all {
      var i :| 0 <= i < |shown| && shown[i] == a;
      assert all[i] == a;
    }
  }
}
