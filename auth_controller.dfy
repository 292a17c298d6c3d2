/**
 * `AuthController`: the login, registration and access-denied pages. The
 * security context's `Authentication` is an input; the Spring `Model`,
 * `BindingResult` and `RedirectAttributes` are objects the handlers write to.
 */
module AuthController {
  import opened Wrappers
  import opened UserEntity
  import opened UserRepository
  import opened UserService
  import SecurityConfig

  /** The current `Authentication`; null is `None`. */
  datatype Authentication = Authentication(name: string, isAuthenticated: bool)

  /** The name Spring gives the anonymous visitor's authentication. */
  const AnonymousUserName := "anonymousUser"

  /** The guard `loginPage` and `registerPage` share: a real, authenticated user. */
  predicate SignedIn(auth: Option<Authentication>) {
    auth.Some? && auth.value.isAuthenticated && auth.value.name != AnonymousUserName
  }

  /** A model attribute value: a message, or the empty registration form. */
  datatype Attribute = Text(text: string) | EmptyRegistrationForm

  /** The registration form as bound from the request. */
  datatype RegistrationForm = RegistrationForm(
    username: string,
    email: string,
    password: string,
    confirmPassword: string,
    fullName: string)

  /** A field error registered with `rejectValue`. */
  datatype FieldError = FieldError(field: string, code: string, message: string)

  const DashboardRedirect := "redirect:/dashboard"
  const LoginView := "auth/login"
  const RegisterView := "auth/register"
  const LoginRedirect := "redirect:/login"
  const RegisterRedirect := "redirect:/register"
  const AccessDeniedView := "error/access-denied"

  const LogoutMessage := "Logout realizado com sucesso!"
  const ExpiredMessage := "Sua sessão expirou. Faça login novamente."
  const PasswordMismatchMessage := "As senhas não coincidem"
  const RegistrationErrorCode := "error.userRegistrationDto"
  const RegisteredMessage := "Usuário cadastrado com sucesso! Faça login para continuar."
  const InternalErrorMessage := "Erro interno do servidor. Tente novamente mais tarde."
  const DefaultLoginError := "Erro de login. Tente novamente."

  // ---------------------------------------------------------------------------
  // getErrorMessage
  // ---------------------------------------------------------------------------

  /** `getErrorMessage`: the switch over the login error codes. */
  function GetErrorMessage(error: string): string {
    match error
    case "invalid_credentials" => "Nome de usuário ou senha inválidos."
    case "user_not_found" => "Usuário não encontrado."
    case "account_expired" => "Sua conta expirou. Entre em contato com o administrador."
    case "account_locked" => "Sua conta está bloqueada. Tente novamente mais tarde."
    case "account_disabled" => "Sua conta está desabilitada. Entre em contato com o administrador."
    case "credentials_expired" => "Suas credenciais expiraram. Altere sua senha."
    case "unauthorized" => "Você precisa fazer login para acessar esta página."
    case "authentication_error" => "Erro de autenticação. Tente novamente."
    case _ => DefaultLoginError
  }

  /** The error codes the switch names. */
  const KnownErrorCodes: set<string> := {
    "invalid_credentials", "user_not_found", "account_expired", "account_locked",
    "account_disabled", "credentials_expired", "unauthorized", "authentication_error"
  }

  /** Exactly the codes the switch names get a message other than the generic one. */
  lemma UnknownCodesGetDefault(c: string)
    ensures GetErrorMessage(c) == DefaultLoginError <==> c !in KnownErrorCodes
  {
    MessageLength(c);
  }

  /** No two codes the switch names share a message, so the message shown tells which code was sent. */
  lemma ErrorMessagesIdentifyCodes(c1: string, c2: string)
    requires c1 in KnownErrorCodes
    requires GetErrorMessage(c1) == GetErrorMessage(c2)
    ensures c1 == c2
  {
    MessageLength(c1);
    MessageLength(c2);
  }

  /** Each message has its own length. */
  lemma MessageLength(c: string)
    ensures |GetErrorMessage(c)| == (
      if c == "invalid_credentials" then 35
      else if c == "user_not_found" then 23
      else if c == "account_expired" then 56
      else if c == "account_locked" then 53
      else if c == "account_disabled" then 66
      else if c == "credentials_expired" then 45
      else if c == "unauthorized" then 50
      else if c == "authentication_error" then 38
      else 31)
  {
    InvalidCredentialsLength();
    UserNotFoundLength();
    AccountExpiredLength();
    AccountLockedLength();
    AccountDisabledLength();
    CredentialsExpiredLength();
    UnauthorizedLength();
    AuthenticationErrorLength();
    DefaultLoginErrorLength();
  }

  // The lengths of the individual messages, one literal at a time. These lemmas
  // state no property of the controller; they only spare the solver from
  // unfolding every literal at once inside MessageLength and ErrorMessagesIdentifyCodes.

  lemma InvalidCredentialsLength()
    ensures |"Nome de usuário ou senha inválidos."| == 35
  {
  }

  lemma UserNotFoundLength()
    ensures |"Usuário não encontrado."| == 23
  {
  }

  lemma AccountExpiredLength()
    ensures |"Sua conta expirou. Entre em contato com o administrador."| == 56
  {
  }

  lemma AccountLockedLength()
    ensures |"Sua conta está bloqueada. Tente novamente mais tarde."| == 53
  {
  }

  lemma AccountDisabledLength()
    ensures |"Sua conta está desabilitada. Entre em contato com o administrador."| == 66
  {
  }

  lemma CredentialsExpiredLength()
    ensures |"Suas credenciais expiraram. Altere sua senha."| == 45
  {
  }

  lemma UnauthorizedLength()
    ensures |"Você precisa fazer login para acessar esta página."| == 50
  {
  }

  lemma AuthenticationErrorLength()
    ensures |"Erro de autenticação. Tente novamente."| == 38
  {
  }

  lemma DefaultLoginErrorLength()
    ensures |DefaultLoginError| == 31
  {
  }

  /**
   * The two codes the security configuration sends to the login page: a failed
   * form login (`error=true`) gets only the generic message, the entry point
   * (`error=unauthorized`) the request to log in.
   */
  lemma ConfiguredCodesMessages()
    ensures GetErrorMessage(SecurityConfig.FailureErrorCode) == DefaultLoginError
    ensures GetErrorMessage(SecurityConfig.UnauthorizedErrorCode)
         == "Você precisa fazer login para acessar esta página."
  {
  }

  // ---------------------------------------------------------------------------
  // The objects the handlers write to
  // ---------------------------------------------------------------------------

  /** Spring's `Model`: named attributes; adding a name again overwrites it. */
  class Model {
    var attributes: map<string, Attribute>

    constructor ()
      ensures attributes == map[]
    {
      attributes := map[];
    }

    method AddAttribute(name: string, value: Attribute)
      modifies this
      ensures attributes == old(attributes)[name := value]
    {
      attributes := attributes[name := value];
    }
  }

  /** `BindingResult`: whether bean validation failed, and the field errors added since. */
  class BindingResult {
    var validationFailed: bool
    var rejected: seq<FieldError>

    constructor (validationFailed: bool)
      ensures this.validationFailed == validationFailed && rejected == []
    {
      this.validationFailed := validationFailed;
      rejected := [];
    }

    predicate HasErrors()
      reads this
    {
      validationFailed || |rejected| > 0
    }

    method RejectValue(field: string, code: string, message: string)
      modifies this
      ensures validationFailed == old(validationFailed)
      ensures rejected == old(rejected) + [FieldError(field, code, message)]
    {
      rejected := rejected + [FieldError(field, code, message)];
    }
  }

  /** `RedirectAttributes`: the flash attributes handed to the next request. */
  class RedirectAttributes {
    var flash: map<string, string>

    constructor ()
      ensures flash == map[]
    {
      flash := map[];
    }

    method AddFlashAttribute(name: string, value: string)
      modifies this
      ensures flash == old(flash)[name := value]
    {
      flash := flash[name := value];
    }
  }

  // ---------------------------------------------------------------------------
  // The pages, as functions of what they read
  // ---------------------------------------------------------------------------

  /** A view name and the model's attributes after the handler. */
  datatype Page = Page(view: string, attributes: map<string, Attribute>)

  /** `loginPage`, on a model holding `attrs`; null parameters are `None`. */
  function LoginPageResult(attrs: map<string, Attribute>, auth: Option<Authentication>,
                           error: Option<string>, logout: Option<string>, expired: Option<string>): Page {
    if SignedIn(auth) then Page(DashboardRedirect, attrs)
    else
      var a1 := if error.Some? then attrs["errorMessage" := Text(GetErrorMessage(error.value))] else attrs;
      var a2 := if logout.Some? then a1["successMessage" := Text(LogoutMessage)] else a1;
      var a3 := if expired.Some? then a2["errorMessage" := Text(ExpiredMessage)] else a2;
      Page(LoginView, a3)
  }

  /** `registerPage`. */
  function RegisterPageResult(attrs: map<string, Attribute>, auth: Option<Authentication>): Page {
    if SignedIn(auth) then Page(DashboardRedirect, attrs)
    else Page(RegisterView, attrs["userRegistrationDto" := EmptyRegistrationForm])
  }

  /** `accessDeniedPage`: any present authentication, anonymous or not, names the user. */
  function AccessDeniedPageResult(attrs: map<string, Attribute>, auth: Option<Authentication>): Page {
    Page(AccessDeniedView, if auth.Some? then attrs["username" := Text(auth.value.name)] else attrs)
  }

  /**
   * A signed-in user is sent to the dashboard from both pages and no attribute
   * is written; anyone else gets the page.
   */
  lemma SignedInSkipsAuthPages(attrs: map<string, Attribute>, auth: Option<Authentication>,
                               error: Option<string>, logout: Option<string>, expired: Option<string>)
    ensures SignedIn(auth) ==> LoginPageResult(attrs, auth, error, logout, expired) == Page(DashboardRedirect, attrs)
    ensures SignedIn(auth) ==> RegisterPageResult(attrs, auth) == Page(DashboardRedirect, attrs)
    ensures !SignedIn(auth) ==> LoginPageResult(attrs, auth, error, logout, expired).view == LoginView
    ensures !SignedIn(auth) ==> RegisterPageResult(attrs, auth).view == RegisterView
    ensures auth == Some(Authentication(AnonymousUserName, true)) ==> !SignedIn(auth)
  {
  }

  /**
   * The login page's messages: the expiry message wins over an error code
   * because it is written last; otherwise the error code's message is shown;
   * the logout message appears exactly when `logout` is given; no other
   * attribute changes.
   */
  lemma LoginPageMessages(attrs: map<string, Attribute>, auth: Option<Authentication>,
                          error: Option<string>, logout: Option<string>, expired: Option<string>)
    requires !SignedIn(auth)
    ensures var a := LoginPageResult(attrs, auth, error, logout, expired).attributes;
      && (expired.Some? ==> a["errorMessage"] == Text(ExpiredMessage))
      && (expired.None? && error.Some? ==> a["errorMessage"] == Text(GetErrorMessage(error.value)))
      && (expired.None? && error.None? ==>
            ("errorMessage" in a <==> "errorMessage" in attrs)
            && ("errorMessage" in attrs ==> a["errorMessage"] == attrs["errorMessage"]))
      && (logout.Some? ==> a["successMessage"] == Text(LogoutMessage))
      && (logout.None? ==>
            ("successMessage" in a <==> "successMessage" in attrs)
            && ("successMessage" in attrs ==> a["successMessage"] == attrs["successMessage"]))
      && a.Keys <= attrs.Keys + {"errorMessage", "successMessage"}
      && (forall k :: k in attrs && k != "errorMessage" && k != "successMessage" ==> k in a && a[k] == attrs[k])
  {
  }

  /** The access-denied page names the user exactly when an authentication is present. */
  lemma AccessDeniedNamesUser(attrs: map<string, Attribute>, auth: Option<Authentication>)
    requires "username" !in attrs
    ensures var p := AccessDeniedPageResult(attrs, auth);
      && p.view == AccessDeniedView
      && ("username" in p.attributes <==> auth.Some?)
      && (auth.Some? ==> p.attributes["username"] == Text(auth.value.name))
  {
  }

  // ---------------------------------------------------------------------------
  // registerUser
  // ---------------------------------------------------------------------------

  /** The `User` built from the form: the no-argument constructor and five setters. */
  function SubmittedUser(form: RegistrationForm): User {
    Unsaved(form.username, form.email).(password := Some(form.password), fullName := Some(form.fullName),
                                        roles := Some({DefaultRole}))
  }

  /** What `registerUser` leaves behind. */
  datatype Registration = Registration(
    view: string,
    repo: UserStore,
    rejected: seq<FieldError>,
    flash: map<string, string>)

  /**
   * `registerUser` as a function of the collection, the binding result, the
   * flash map and `unexpectedFailure`, which stands for `createUser` raising
   * something other than `IllegalArgumentException` (the store being unavailable),
   * in which case its transaction writes nothing.
   */
  function RegisterUserResult(repo: UserStore, form: RegistrationForm, hasErrors: bool,
                              rejected: seq<FieldError>, flash: map<string, string>,
                              unexpectedFailure: bool, now: int): Registration {
    if hasErrors then Registration(RegisterView, repo, rejected, flash)
    else if form.password != form.confirmPassword then
      Registration(RegisterView, repo,
                   rejected + [FieldError("confirmPassword", RegistrationErrorCode, PasswordMismatchMessage)], flash)
    else if unexpectedFailure then
      Registration(RegisterRedirect, repo, rejected, flash["errorMessage" := InternalErrorMessage])
    else
      var o := CreateUserOutcome(repo, SubmittedUser(form), now);
      match o.result
      case Ok(_) => Registration(LoginRedirect, o.repo, rejected, flash["successMessage" := RegisteredMessage])
      case Err(e) =>
        if e.IsIllegalArgument() then
          Registration(RegisterView, o.repo,
                       rejected + [FieldError("username", RegistrationErrorCode, e.Message())], flash)
        else
          Registration(RegisterRedirect, o.repo, rejected, flash["errorMessage" := InternalErrorMessage])
  }

  /**
   * Binding errors and mismatched passwords return the form without calling
   * `createUser`: nothing is stored and only the mismatch adds a field error,
   * on `confirmPassword`.
   */
  lemma RegisterRejectsBadForms(repo: UserStore, form: RegistrationForm, hasErrors: bool,
                                rejected: seq<FieldError>, flash: map<string, string>, unexpectedFailure: bool, now: int)
    requires hasErrors || form.password != form.confirmPassword
    ensures var r := RegisterUserResult(repo, form, hasErrors, rejected, flash, unexpectedFailure, now);
      && r.view == RegisterView && r.repo == repo && r.flash == flash
      && (hasErrors ==> r.rejected == rejected)
      && (!hasErrors ==> r.rejected == rejected + [FieldError("confirmPassword", RegistrationErrorCode,
                                                               PasswordMismatchMessage)])
  {
  }

  /**
   * A well-formed form whose username and email are free is stored with the role
   * set {"USER"}, all four flags set and the typed password encoded, and the
   * visitor is redirected to the login page with the success message.
   */
  lemma RegisterStoresNewUser(repo: UserStore, form: RegistrationForm, rejected: seq<FieldError>,
                              flash: map<string, string>, now: int)
    requires Consistent(repo)
    requires form.password == form.confirmPassword
    requires !repo.ExistsByUsername(form.username) && !repo.ExistsByEmail(form.email)
    ensures var r := RegisterUserResult(repo, form, false, rejected, flash, false, now);
      && r.view == LoginRedirect && r.rejected == rejected
      && r.flash == flash["successMessage" := RegisteredMessage]
      && Consistent(r.repo)
      && |r.repo.users| == |repo.users| + 1
      && exists k :: k in r.repo.users && k !in repo.users
           && var v := r.repo.users[k];
           && v.username == form.username && v.email == form.email
           && v.fullName == Some(form.fullName)
           && v.roles == Some({DefaultRole})
           && v.password == Some(Encode(Some(form.password)))
           && StartsEnabled(v)
  {
    var c := SubmittedUser(form);
    CreateUserStores(repo, c, now);
    var v := CreateUserOutcome(repo, c, now).result.value;
    assert v.id.value !in repo.users;
    assert v.id.value in CreateUserOutcome(repo, c, now).repo.users;
  }

  /**
   * A taken username or email puts the service's message on field `username`,
   * returns the form and stores nothing; the generic error page is reached only
   * through an unexpected failure.
   */
  lemma RegisterReportsDuplicates(repo: UserStore, form: RegistrationForm, rejected: seq<FieldError>,
                                  flash: map<string, string>, unexpectedFailure: bool, now: int)
    requires form.password == form.confirmPassword
    ensures var r := RegisterUserResult(repo, form, false, rejected, flash, unexpectedFailure, now);
      && (r.view == RegisterRedirect <==> unexpectedFailure)
      && (unexpectedFailure ==> r.repo == repo && r.flash == flash["errorMessage" := InternalErrorMessage])
      && (!unexpectedFailure && repo.ExistsByUsername(form.username) ==>
            && r.view == RegisterView && r.repo == repo && r.flash == flash
            && r.rejected == rejected + [FieldError("username", RegistrationErrorCode,
                                                    "Nome de usuário já existe: " + form.username)])
      && (!unexpectedFailure && !repo.ExistsByUsername(form.username) && repo.ExistsByEmail(form.email) ==>
            && r.view == RegisterView && r.repo == repo && r.flash == flash
            && r.rejected == rejected + [FieldError("username", RegistrationErrorCode,
                                                    "Email já existe: " + form.email)])
  {
    CreateUserRejectsDuplicates(repo, SubmittedUser(form), now);
  }

  // ---------------------------------------------------------------------------
  // The handlers
  // ---------------------------------------------------------------------------

  method LoginPage(model: Model, auth: Option<Authentication>,
                   error: Option<string>, logout: Option<string>, expired: Option<string>) returns (view: string)
    modifies model
    ensures Page(view, model.attributes) == LoginPageResult(old(model.attributes), auth, error, logout, expired)
  {
    if SignedIn(auth) {
      return DashboardRedirect;
    }
    if error.Some? {
      var errorMessage := GetErrorMessage(error.value);
      model.AddAttribute("errorMessage", Text(errorMessage));
    }
    if logout.Some? {
      model.AddAttribute("successMessage", Text(LogoutMessage));
    }
    if expired.Some? {
      model.AddAttribute("errorMessage", Text(ExpiredMessage));
    }
    view := LoginView;
  }

  method RegisterPage(model: Model, auth: Option<Authentication>) returns (view: string)
    modifies model
    ensures Page(view, model.attributes) == RegisterPageResult(old(model.attributes), auth)
  {
    if SignedIn(auth) {
      return DashboardRedirect;
    }
    model.AddAttribute("userRegistrationDto", EmptyRegistrationForm);
    view := RegisterView;
  }

  method AccessDeniedPage(model: Model, auth: Option<Authentication>) returns (view: string)
    modifies model
    ensures Page(view, model.attributes) == AccessDeniedPageResult(old(model.attributes), auth)
  {
    if auth.Some? {
      model.AddAttribute("username", Text(auth.value.name));
    }
    view := AccessDeniedView;
  }

  method RegisterUser(userService: UserService, form: RegistrationForm, bindingResult: BindingResult,
                      redirectAttributes: RedirectAttributes, unexpectedFailure: bool, now: int)
    returns (view: string)
    requires userService.Valid()
    modifies userService, bindingResult, redirectAttributes
    ensures userService.Valid()
    ensures bindingResult.validationFailed == old(bindingResult.validationFailed)
    ensures Registration(view, userService.repo, bindingResult.rejected, redirectAttributes.flash)
         == RegisterUserResult(old(userService.repo), form, old(bindingResult.HasErrors()),
                               old(bindingResult.rejected), old(redirectAttributes.flash), unexpectedFailure, now)
  {
    if bindingResult.HasErrors() {
      return RegisterView;
    }
    if form.password != form.confirmPassword {
      bindingResult.RejectValue("confirmPassword", RegistrationErrorCode, PasswordMismatchMessage);
      return RegisterView;
    }
    var user := Unsaved(form.username, form.email);
    user := user.(password := Some(form.password));
    user := user.(fullName := Some(form.fullName));
    user := user.(roles := Some({DefaultRole}));
    if unexpectedFailure {
      redirectAttributes.AddFlashAttribute("errorMessage", InternalErrorMessage);
      return RegisterRedirect;
    }
    var savedUser := userService.CreateUser(user, now);
    match savedUser
    case Ok(_) =>
      redirectAttributes.AddFlashAttribute("successMessage", RegisteredMessage);
      view := LoginRedirect;
    case Err(e) =>
      if e.IsIllegalArgument() {
        bindingResult.RejectValue("username", RegistrationErrorCode, e.Message());
        view := RegisterView;
      } else {
        redirectAttributes.AddFlashAttribute("errorMessage", InternalErrorMessage);
        view := RegisterRedirect;
      }
  }
}
