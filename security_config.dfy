// The authorization part of `SecurityConfig.filterChain`: an ordered rule table
// evaluated first match wins, the form-login and logout pages it permits, and
// the redirect targets it configures. A request is modelled by its path alone.
//
// Pattern semantics, a simplification of Spring's path matcher: a pattern
// written `P/**` is `Under(P)` and matches `P` itself and every path starting
// with `P/`; any other pattern is `Exact` and matches only the identical path.
module SecurityConfig {
  import opened Wrappers
  import opened Strings

  /** Who is asking: the anonymous visitor, or an authenticated identity with its role names. */
  datatype Principal = Anonymous | Identified(name: string, roles: set<string>)

  /** What a rule requires. */
  datatype Access =
    | PermitAll
    | HasRole(role: string)
    | HasAnyRole(anyOf: set<string>)
    | IsAuthenticated

  /** A request pattern. */
  datatype Pattern = Exact(path: string) | Under(base: string)
  {
    /** The literal text before any wildcard. */
    function Base(): string {
      match this
      case Exact(p) => p
      case Under(b) => b
    }
  }

  /** Which requests a rule applies to. */
  datatype Matcher = Patterns(patterns: seq<Pattern>) | AnyRequest

  datatype Rule = Rule(matcher: Matcher, access: Access)

  datatype Decision = Permit | Deny

  /** What happens to the request once decided. */
  datatype Response = Proceed | RedirectTo(location: string) | ForwardTo(page: string)

  const PublicPatterns: seq<Pattern> := [
    Exact("/"), Exact("/login"), Exact("/register"), Under("/register"), Under("/css"),
    Under("/js"), Under("/images"), Exact("/favicon.ico"), Exact("/error")
  ]

  /** The `authorizeHttpRequests` table, in declaration order. */
  const Rules: seq<Rule> := [
    Rule(Patterns(PublicPatterns), PermitAll),
    Rule(Patterns([Under("/admin")]), HasRole("ADMIN")),
    Rule(Patterns([Under("/dashboard"), Under("/profile")]), HasAnyRole({"USER", "ADMIN"})),
    Rule(Patterns([Under("/api/public")]), PermitAll),
    Rule(Patterns([Under("/api")]), HasAnyRole({"USER", "ADMIN"})),
    Rule(AnyRequest, IsAuthenticated)
  ]

  const LoginPage := "/login"
  const LogoutUrl := "/logout"
  const DefaultSuccessUrl := "/dashboard"
  /** The error code form login appends on a failed attempt. */
  const FailureErrorCode := "true"
  const FailureUrl := "/login?error=" + FailureErrorCode
  const LogoutSuccessUrl := "/login?logout=true"
  const ExpiredUrl := "/login?expired"
  const AccessDeniedPage := "/access-denied"
  /** The error code the authentication entry point appends. */
  const UnauthorizedErrorCode := "unauthorized"
  const EntryPointUrl := "/login?error=" + UnauthorizedErrorCode

  /** The pages `formLogin(...).permitAll()` and `logout(...).permitAll()` open to everyone, ahead of the table. */
  const FrameworkPermitted: set<string> := {LoginPage, LogoutUrl}

  /** Whether `pattern` matches `path`. */
  predicate Matches(pattern: Pattern, path: string) {
    match pattern
    case Exact(p) => path == p
    case Under(b) => path == b || StartsWith(path, b + "/")
  }

  predicate RuleMatches(rule: Rule, path: string) {
    match rule.matcher
    case AnyRequest => true
    case Patterns(ps) => exists i :: 0 <= i < |ps| && Matches(ps[i], path)
  }

  /** Whether `access` lets `principal` through; anonymous visitors hold no role. */
  predicate Grants(access: Access, principal: Principal) {
    match access
    case PermitAll => true
    case IsAuthenticated => principal.Identified?
    case HasRole(role) => principal.Identified? && role in principal.roles
    case HasAnyRole(anyOf) => principal.Identified? && anyOf * principal.roles != {}
  }

  /** The index of the first rule of `rules` that matches `path`, if any. */
  function FirstMatch(rules: seq<Rule>, path: string): (r: Option<nat>)
    ensures r.Some? ==> r.value < |rules| && RuleMatches(rules[r.value], path)
    ensures r.Some? ==> forall j :: 0 <= j < r.value ==> !RuleMatches(rules[j], path)
    ensures r.None? ==> forall j :: 0 <= j < |rules| ==> !RuleMatches(rules[j], path)
  {
    if rules == [] then None
    else if RuleMatches(rules[0], path) then Some(0)
    else
      match FirstMatch(rules[1..], path)
      case None => None
      case Some(i) => Some(i + 1)
  }

  /** The authorization decision for `path`. */
  function Decide(path: string, principal: Principal): Decision {
    if path in FrameworkPermitted then Permit
    else
      match FirstMatch(Rules, path)
      case None => Deny
      case Some(i) => if Grants(Rules[i].access, principal) then Permit else Deny
  }

  /**
   * What a request becomes: it proceeds when permitted; a denied anonymous
   * visitor is sent by the entry point to the login page with
   * `error=unauthorized`; a denied identified user is shown the access-denied page.
   */
  function Respond(path: string, principal: Principal): (r: Response)
    ensures r.Proceed? <==> Decide(path, principal) == Permit
    ensures r.RedirectTo? <==> Decide(path, principal) == Deny && principal.Anonymous?
    ensures r.RedirectTo? ==> r.location == EntryPointUrl
    ensures r.ForwardTo? <==> Decide(path, principal) == Deny && principal.Identified?
    ensures r.ForwardTo? ==> r.page == AccessDeniedPage
  {
    if Decide(path, principal) == Permit then Proceed
    else if principal.Anonymous? then RedirectTo(EntryPointUrl)
    else ForwardTo(AccessDeniedPage)
  }

  // ---------------------------------------------------------------------------
  // What the policy promises
  // ---------------------------------------------------------------------------

  /** A matched path agrees with the pattern's literal text on its whole length. */
  lemma MatchedPathStartsWithBase(pattern: Pattern, path: string)
    requires Matches(pattern, path)
    ensures |pattern.Base()| <= |path|
    ensures forall k :: 0 <= k < |pattern.Base()| ==> path[k] == pattern.Base()[k]
  {
    if pattern.Under? && path != pattern.base {
      forall k | 0 <= k < |pattern.Base()| ensures path[k] == pattern.Base()[k] {
        assert path[k] == path[..|pattern.base| + 1][k] == (pattern.base + "/")[k];
      }
    }
  }

  /** A path that differs from a pattern's literal text inside it is not matched. */
  lemma DiffersWithin(pattern: Pattern, path: string, k: nat)
    requires k < |pattern.Base()| && k < |path| && path[k] != pattern.Base()[k]
    ensures !Matches(pattern, path)
  {
    if Matches(pattern, path) {
      MatchedPathStartsWithBase(pattern, path);
    }
  }

  /**
   * The last rule matches everything, so every path is decided by exactly one
   * rule: the first that matches it.
   */
  lemma EveryPathHasOneRule(path: string, principal: Principal)
    ensures FirstMatch(Rules, path).Some?
    ensures path !in FrameworkPermitted ==>
      var i := FirstMatch(Rules, path).value;
      && (forall j :: 0 <= j < i ==> !RuleMatches(Rules[j], path))
      && (Decide(path, principal) == Permit <==> Grants(Rules[i].access, principal))
  {
    assert RuleMatches(Rules[|Rules| - 1], path);
  }

  /** The public resources are open to everyone, signed in or not. */
  lemma PublicPathsArePermitted(path: string, principal: Principal)
    requires exists i :: 0 <= i < |PublicPatterns| && Matches(PublicPatterns[i], path)
    ensures Decide(path, principal) == Permit
  {
    assert RuleMatches(Rules[0], path);
  }

  /** No public pattern matches a path whose second character is 'a', 'd' or 'p'. */
  lemma NotPublic(path: string)
    requires |path| >= 2 && path[1] in {'a', 'd', 'p'}
    ensures !RuleMatches(Rules[0], path)
  {
    forall i | 0 <= i < |PublicPatterns| ensures !Matches(PublicPatterns[i], path) {
      if i > 0 {
        DiffersWithin(PublicPatterns[i], path, 1);
      }
    }
  }

  // A path under `/admin` is allowed exactly to identified users with role ADMIN.
  lemma AdminNeedsAdminRole(path: string, principal: Principal)
    requires Matches(Under("/admin"), path)
    ensures Decide(path, principal) == Permit <==> principal.Identified? && "ADMIN" in principal.roles
  {
    MatchedPathStartsWithBase(Under("/admin"), path);
    NotPublic(path);
    assert Matches(Rules[1].matcher.patterns[0], path);
    assert FirstMatch(Rules, path) == Some(1);
  }

  // The third rule is the first to match a path under `/dashboard` or `/profile`.
  lemma UserAreaRule(path: string)
    requires Matches(Under("/dashboard"), path) || Matches(Under("/profile"), path)
    ensures path !in FrameworkPermitted && FirstMatch(Rules, path) == Some(2)
  {
    if Matches(Under("/dashboard"), path) {
      MatchedPathStartsWithBase(Under("/dashboard"), path);
      assert Matches(Rules[2].matcher.patterns[0], path);
    } else {
      MatchedPathStartsWithBase(Under("/profile"), path);
      assert Matches(Rules[2].matcher.patterns[1], path);
    }
    NotPublic(path);
    DiffersWithin(Under("/admin"), path, 1);
  }

  // Paths under `/dashboard` and `/profile` are allowed exactly to identified
  // users with role USER or ADMIN.
  lemma UserAreaNeedsUserOrAdmin(path: string, principal: Principal)
    requires Matches(Under("/dashboard"), path) || Matches(Under("/profile"), path)
    ensures Decide(path, principal) == Permit
        <==> principal.Identified? && ("USER" in principal.roles || "ADMIN" in principal.roles)
  {
    UserAreaRule(path);
    if principal.Identified? && ("USER" in principal.roles || "ADMIN" in principal.roles) {
      var r := if "USER" in principal.roles then "USER" else "ADMIN";
      assert r in {"USER", "ADMIN"} * principal.roles;
    }
  }

  // The rules ahead of the `/api/public/**` rule match no path under `/api`.
  lemma ApiSkipsFirstThree(path: string)
    requires Matches(Under("/api"), path)
    ensures forall j :: 0 <= j < 3 ==> !RuleMatches(Rules[j], path)
  {
    MatchedPathStartsWithBase(Under("/api"), path);
    NotPublic(path);
    DiffersWithin(Under("/admin"), path, 2);
    DiffersWithin(Under("/dashboard"), path, 1);
    DiffersWithin(Under("/profile"), path, 2);
  }

  // A path under `/api/public` is open to everyone: its rule comes before the
  // general `/api/**` rule, so no role is ever needed.
  lemma PublicApiIsOpen(path: string, principal: Principal)
    requires Matches(Under("/api/public"), path)
    ensures Decide(path, principal) == Permit
  {
    MatchedPathStartsWithBase(Under("/api/public"), path);
    assert Matches(Under("/api"), path) by {
      assert path[..5] == "/api/";
      if path != "/api" {
        assert path[..|"/api/"|] == "/api" + "/";
      }
    }
    ApiSkipsFirstThree(path);
    assert Matches(Rules[3].matcher.patterns[0], path);
    assert FirstMatch(Rules, path) == Some(3);
  }

  /** Any other path under `/api` is allowed exactly to identified users with role USER or ADMIN. */
  lemma ApiNeedsUserOrAdmin(path: string, principal: Principal)
    requires Matches(Under("/api"), path) && !Matches(Under("/api/public"), path)
    ensures Decide(path, principal) == Permit
        <==> principal.Identified? && ("USER" in principal.roles || "ADMIN" in principal.roles)
  {
    MatchedPathStartsWithBase(Under("/api"), path);
    assert path != LoginPage && path != LogoutUrl by {
      DiffersWithin(Exact(LoginPage), path, 1);
      DiffersWithin(Exact(LogoutUrl), path, 1);
    }
    ApiSkipsFirstThree(path);
    assert !RuleMatches(Rules[3], path);
    assert Matches(Rules[4].matcher.patterns[0], path);
    assert FirstMatch(Rules, path) == Some(4);
    if principal.Identified? && ("USER" in principal.roles || "ADMIN" in principal.roles) {
      var r := if "USER" in principal.roles then "USER" else "ADMIN";
      assert r in {"USER", "ADMIN"} * principal.roles;
    }

  }

  /** A path no pattern of the table names needs an identified user, whatever its roles. */
  lemma OtherPathsNeedAuthentication(path: string, principal: Principal)
    requires path !in FrameworkPermitted
    requires forall j :: 0 <= j < |Rules| - 1 ==> !RuleMatches(Rules[j], path)
    ensures Decide(path, principal) == Permit <==> principal.Identified?
  {
    EveryPathHasOneRule(path, principal);
  }

  /** No rule of the table before the catch-all names the access-denied page. */
  lemma AccessDeniedPageIsUnlisted()
    ensures forall j :: 0 <= j < |Rules| - 1 ==> !RuleMatches(Rules[j], AccessDeniedPage)
  {
    NotPublic(AccessDeniedPage);
    DiffersWithin(Under("/admin"), AccessDeniedPage, 2);
    DiffersWithin(Under("/dashboard"), AccessDeniedPage, 1);
    DiffersWithin(Under("/profile"), AccessDeniedPage, 1);
    DiffersWithin(Under("/api/public"), AccessDeniedPage, 2);
    DiffersWithin(Under("/api"), AccessDeniedPage, 2);
  }

  /** The access-denied page is shown to every identified user and to no anonymous one. */
  lemma AccessDeniedPageNeedsAuthentication(principal: Principal)
    ensures Decide(AccessDeniedPage, principal) == Permit <==> principal.Identified?
  {
    AccessDeniedPageIsUnlisted();
    OtherPathsNeedAuthentication(AccessDeniedPage, principal);
  }

  /**
   * Where a denial sends the user is a page that user may see: the login page
   * is open to everyone, the access-denied page to every identified user.
   */
  lemma DenialTargetsAreReachable(path: string, principal: Principal)
    ensures Respond(path, principal).RedirectTo? ==> Decide(LoginPage, principal) == Permit
    ensures Respond(path, principal).ForwardTo? ==> Decide(Respond(path, principal).page, principal) == Permit
  {
    if principal.Identified? {
      AccessDeniedPageNeedsAuthentication(principal);
    }
  }
}
