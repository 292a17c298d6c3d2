# Secure login system: a verified model

This project models the logic of a Spring Boot login application backed by MongoDB. The model covers:

- **Accounts.** The `User` document and the `users` collection, modelled as a map from id to user. The map keeps unique usernames and emails. It includes the derived finders and `UserService`'s account lifecycle:
  - authentication lookup;
  - registration, with a duplicate check and password encoding;
  - profile update;
  - activate, deactivate and unlock;
  - the role check;
  - the default-administrator bootstrap.
- **Login attempts.** The append-only attempt log, its time-window and newest-first queries, and the 24-hour security report with its success and failure rates.
- **Access policy.** The authorization part of `SecurityConfig.filterChain`:
  - an ordered table of first-match rules;
  - the login and logout pages that form login opens to everyone;
  - the redirect and access-denied targets.
- **Controllers.** `AuthController`:
  - the error-code switch;
  - the login, registration and access-denied handlers, which write to `Model`, `BindingResult` and `RedirectAttributes`.

  `DashboardController`:
  - the dashboard, which shows the five most recent successful logins;
  - the profile page.
- **Client-side validators** in `script.js`:
  - the password-strength score and its bands;
  - the e-mail pattern;
  - `ValidationUtils.validateForm` and `clearValidation`, over an array of form elements;
  - the password-visibility toggle.

Code that updates state in place is modelled imperatively:

- The user service and the attempt log are classes whose field is the collection. Their methods are proved equal to a function of the state before the call. Lemmas about those functions state what the operations promise.
- The form validators loop over an `array` in place.
- The toggle handler mutates two objects.

Lookups, queries, the policy and the score are pure functions.

Modelling assumptions:

- Password encoding is a fixed injective function.
- The clock is a parameter `now`, in integer seconds.
- Document ids are natural numbers handed out by the store.
- A Spring pattern `P/**` matches `P` itself and every path that starts with `P/`. Any other pattern matches only the identical path. This simplifies Spring's path matcher.

## Model

| member | source | states |
|---|---|---|
| UserEntity.Unsaved | src/main/java/com/securelogin/entity/User.java:47-57 | a user from the no-argument constructor and two setters has all four status flags true, and every other field unset |
| UserEntity.NewUser | src/main/java/com/securelogin/entity/User.java:71-79 | the five-argument constructor stores its five arguments as given; takes createdAt and updatedAt both from the clock parameter `now`; starts enabled; leaves id and lastLogin unset |
| UserEntity.Encode | src/main/java/com/securelogin/service/UserService.java:55 | the stored encoding never equals the plaintext it encodes |
| UserEntity.EncodeInjective | src/main/java/com/securelogin/service/UserService.java:55 | two raw passwords, an absent one included, share an encoding only when they are equal |
| UserRepository.UserStore.FindById | src/main/java/com/securelogin/service/UserService.java:96-98 | present exactly when the id is stored, and then it is the stored user |
| UserRepository.UserStore.FindByUsername | src/main/java/com/securelogin/repository/UserRepository.java:20 | present exactly when `existsByUsername` holds; then it is a stored user with that username |
| UserRepository.UserStore.FindByEmail | src/main/java/com/securelogin/repository/UserRepository.java:27 | present exactly when `existsByEmail` holds; then it is a stored user with that email |
| UserRepository.UserStore.FindByIsActiveTrue | src/main/java/com/securelogin/repository/UserRepository.java:47 | exactly the stored users that are active |
| UserRepository.UserStore.FindByRole | src/main/java/com/securelogin/repository/UserRepository.java:54-55 | exactly the stored users whose role set holds the role |
| UserRepository.UserStore.Save | src/main/java/com/securelogin/service/UserService.java:59 | upsert: a user without an id gets a fresh one; one with an id replaces that entry; the returned copy is the stored one, and no other entry changes |
| UserRepository.SavePreservesValid | src/main/java/com/securelogin/entity/User.java:31-37 | the unique username and email indexes survive a save when no other document holds the saved username or email |
| UserRepository.SaveMakesUsernameExist | src/main/java/com/securelogin/repository/UserRepository.java:34 | after a save, `existsByUsername` holds for the saved username |
| UserService.LoadUserByUsername | src/main/java/com/securelogin/service/UserService.java:30-39 | succeeds exactly when a user with that username exists and is active, returning it; raises "not found" for an unknown name and "inactive" for an inactive user |
| UserService.HasRole | src/main/java/com/securelogin/service/UserService.java:153-157 | true exactly when a stored user with that username has the role, so false for an unknown username |
| UserService.CreateUserRejectsDuplicates | src/main/java/com/securelogin/service/UserService.java:43-49 | a taken username is reported before the email is looked at; a taken email is reported; on either error nothing is written, and the error is an IllegalArgumentException |
| UserService.CreateUserStores | src/main/java/com/securelogin/service/UserService.java:51-59 | one record is written under the candidate's id, or added under a fresh id when it has none (save is an upsert, so a candidate whose id is already stored replaces that record): roles {"USER"} when they were null or empty, otherwise kept; the encoded password in place of the plaintext; createdAt and updatedAt both from the clock parameter `now`; every other field as submitted |
| UserService.CreateUserKeepsConsistent | src/main/java/com/securelogin/service/UserService.java:42-60 | createUser keeps usernames and emails unique and every stored user with a role set, whatever the outcome |
| UserService.UpdateUserEffect | src/main/java/com/securelogin/service/UserService.java:63-94 | unknown id or an email clash: error, no write. Otherwise fullName and email change only when given, the password is re-encoded only when given and non-empty, roles are replaced whenever given, updatedAt is refreshed; id, username, flags, createdAt, lastLogin and other accounts are unchanged |
| UserService.UpdateKeepsConsistent | src/main/java/com/securelogin/service/UserService.java:73-78 | because a changed email is checked against the others, updateUser keeps emails unique |
| UserService.SetActiveTransition | src/main/java/com/securelogin/service/UserService.java:112-138 | activate and deactivate: unknown id gives an error and no write; otherwise only isActive and updatedAt of that user change |
| UserService.UnlockTransition | src/main/java/com/securelogin/service/UserService.java:140-151 | unlock: unknown id gives an error and no write; otherwise only isAccountNonLocked changes, and updatedAt is not refreshed |
| UserService.UpdateCanEmptyRoles | src/main/java/com/securelogin/service/UserService.java:84-86 | a patch with an empty role set succeeds and leaves the account with no role |
| UserService.BootstrapIdempotent | src/main/java/com/securelogin/service/UserService.java:159-173 | a second bootstrap leaves the collection as the first one left it |
| UserService.BootstrappedAdmin | src/main/java/com/securelogin/service/UserService.java:160-172 | a successful bootstrap stores one "admin" with roles {ADMIN, USER}, whose password is the encoding of no password, which no typed password encodes to |
| UserService.CreateUserIgnoresDeclaredConstraints | src/main/java/com/securelogin/entity/User.java:29-45 | the bean-validation constraints are not checked by createUser: a one-letter username with no password is stored |
| UserService.UserService.constructor | src/main/java/com/securelogin/service/UserService.java:25 | the service starts over the collection it is given |
| UserService.UserService.CreateUser | src/main/java/com/securelogin/service/UserService.java:42-60 | the step-by-step createUser returns and writes what CreateUserRejectsDuplicates and CreateUserStores describe, and keeps the collection consistent |
| UserService.UserService.UpdateUser | src/main/java/com/securelogin/service/UserService.java:63-94 | the step-by-step updateUser returns and writes what UpdateUserEffect describes |
| UserService.UserService.DeactivateUser | src/main/java/com/securelogin/service/UserService.java:113-124 | writes the transition SetActiveTransition describes, with the flag false |
| UserService.UserService.ActivateUser | src/main/java/com/securelogin/service/UserService.java:127-138 | writes the transition SetActiveTransition describes, with the flag true |
| UserService.UserService.UnlockUser | src/main/java/com/securelogin/service/UserService.java:141-151 | writes the transition UnlockTransition describes |
| UserService.UserService.CreateDefaultAdminIfNotExists | src/main/java/com/securelogin/service/UserService.java:160-173 | does nothing when "admin" exists, otherwise creates it through createUser; BootstrappedAdmin and BootstrapIdempotent hold of it |
| LoginAttemptEntity.NewAttempt | src/main/java/com/securelogin/entity/LoginAttempt.java:39-45 | the four-argument constructor keeps its arguments, stamps the attempt with now, and sets no failure reason |
| LoginAttemptRepository.SortNewestFirstSpec | src/main/java/com/securelogin/repository/LoginAttemptRepository.java:14 | the ordering the OrderByAttemptTimeDesc queries apply yields a permutation of its input, newest first |
| LoginAttemptRepository.FindByUsernameOrderByAttemptTimeDesc | src/main/java/com/securelogin/repository/LoginAttemptRepository.java:14 | newest first, and a permutation of that username's attempts: all of them, and nothing else |
| LoginAttemptRepository.FindByUsernameAndSuccessOrderByAttemptTimeDesc | src/main/java/com/securelogin/repository/LoginAttemptRepository.java:16 | newest first, and a permutation of that username's attempts with the given success flag |
| LoginAttemptRepository.FindRecentAttempts | src/main/java/com/securelogin/repository/LoginAttemptRepository.java:18-19 | exactly the attempts at or after `since` (the bound included) |
| LoginAttemptRepository.FindFailedAttemptsSince | src/main/java/com/securelogin/repository/LoginAttemptRepository.java:21-22 | exactly the failed attempts at or after `since` |
| LoginAttemptRepository.FindFailedAttemptsByIpSince | src/main/java/com/securelogin/repository/LoginAttemptRepository.java:24-25 | exactly the failed attempts from that address at or after `since` |
| LoginAttemptRepository.UsernameQueryCounts | src/main/java/com/securelogin/repository/LoginAttemptRepository.java:14-16 | both username queries hold each matching attempt exactly as often as the collection does, and no other attempt |
| LoginAttemptRepository.WindowQueryCounts | src/main/java/com/securelogin/repository/LoginAttemptRepository.java:18-25 | the three window queries hold each matching attempt exactly as often as the collection does, and no other attempt |
| LoginAttemptRepository.FailedWithinRecent | src/main/java/com/securelogin/repository/LoginAttemptRepository.java:18-22 | the failed attempts in a window are among all the attempts in it; the difference in count is the number of successful attempts in it |
| LoginAttemptRepository.RecentAppend | src/main/java/com/securelogin/repository/LoginAttemptRepository.java:18-19 | a new attempt joins the window query exactly when it falls in the window; the model places it at the end, an order the source does not promise |
| LoginAttemptRepository.FailedAppend | src/main/java/com/securelogin/repository/LoginAttemptRepository.java:21-22 | a new attempt joins the failed-window query exactly when it failed inside the window; the model places it at the end, an order the source does not promise |
| LoginAttemptRepository.AppendCounts | src/main/java/com/securelogin/repository/LoginAttemptRepository.java:18-22 | one appended attempt changes each window count by one or zero, as above |
| LoginAttemptService.GetSuccessfulLoginAttemptsByUsername | src/main/java/com/securelogin/service/LoginAttemptService.java:32-34 | exactly that user's successful attempts, newest first |
| LoginAttemptService.GetFailedLoginAttemptsByUsername | src/main/java/com/securelogin/service/LoginAttemptService.java:36-38 | exactly that user's failed attempts, newest first |
| LoginAttemptService.GetRecentFailedAttemptsByIp | src/main/java/com/securelogin/service/LoginAttemptService.java:40-43 | exactly the failed attempts from that address no older than `hours` hours before now |
| LoginAttemptService.SuccessfulCounts | src/main/java/com/securelogin/service/LoginAttemptService.java:32-34 | each of that user's successful attempts appears exactly as often as in the log; nothing else appears |
| LoginAttemptService.FailedCounts | src/main/java/com/securelogin/service/LoginAttemptService.java:36-38 | each of that user's failed attempts appears exactly as often as in the log; nothing else appears |
| LoginAttemptService.RecentFailedByIpCounts | src/main/java/com/securelogin/service/LoginAttemptService.java:40-43 | each recent failed attempt from that address appears exactly as often as in the log; nothing else appears |
| LoginAttemptService.ReportCounts | src/main/java/com/securelogin/service/LoginAttemptService.java:45-56 | the window starts 24 hours before now; total counts the attempts in the window; failed counts the failed ones; successful (total minus failed) is the number of successful ones, so it is never negative |
| LoginAttemptService.RatesComplement | src/main/java/com/securelogin/service/LoginAttemptService.java:66-72 | both rates are 0 with no attempts; otherwise they lie in [0, 100] and sum to 100 |
| LoginAttemptService.ReportRates | src/main/java/com/securelogin/service/LoginAttemptService.java:45-72 | every generated report's rates sum to 100 when there were attempts, and are both 0 otherwise |
| LoginAttemptService.ExampleRates | src/main/java/com/securelogin/service/LoginAttemptService.java:66-72 | 7 successes and 3 failures out of 10 give rates of 70 and 30 |
| LoginAttemptService.RecordedAttemptIsReported | src/main/java/com/securelogin/service/LoginAttemptService.java:19-56 | an attempt recorded at now adds one to the report's total, and one to its failures exactly when it failed |
| LoginAttemptService.LoginAttemptService.constructor | src/main/java/com/securelogin/service/LoginAttemptService.java:17 | the service starts over the attempts it is given |
| LoginAttemptService.LoginAttemptService.RecordLoginAttempt | src/main/java/com/securelogin/service/LoginAttemptService.java:19-23 | appends exactly the constructed attempt; earlier attempts are unchanged |
| LoginAttemptService.LoginAttemptService.RecordLoginAttemptWithReason | src/main/java/com/securelogin/service/LoginAttemptService.java:25-30 | appends exactly one attempt, the constructed one with the given failure reason, and keeps every earlier attempt |
| SecurityConfig.FirstMatch | src/main/java/com/securelogin/config/SecurityConfig.java:53-81 | the index found is of a rule that matches, and no earlier rule matches; none is found only when no rule matches |
| SecurityConfig.Respond | src/main/java/com/securelogin/config/SecurityConfig.java:117-122 | a request proceeds exactly when permitted; a denied anonymous visitor is redirected to "/login?error=unauthorized"; a denied identified user is forwarded to "/access-denied" |
| SecurityConfig.EveryPathHasOneRule | src/main/java/com/securelogin/config/SecurityConfig.java:53-81 | every path outside the framework's own pages is decided by exactly one rule, the first that matches |
| SecurityConfig.PublicPathsArePermitted | src/main/java/com/securelogin/config/SecurityConfig.java:55-65 | every path one of the nine public patterns matches is permitted to anyone |
| SecurityConfig.AdminNeedsAdminRole | src/main/java/com/securelogin/config/SecurityConfig.java:68 | under "/admin", access is granted exactly to identities with role ADMIN |
| SecurityConfig.UserAreaNeedsUserOrAdmin | src/main/java/com/securelogin/config/SecurityConfig.java:71 | under "/dashboard" or "/profile", access is granted exactly to identities with role USER or ADMIN |
| SecurityConfig.PublicApiIsOpen | src/main/java/com/securelogin/config/SecurityConfig.java:74-77 | every path under "/api/public" is permitted to anyone, although it also matches "/api/**" |
| SecurityConfig.ApiNeedsUserOrAdmin | src/main/java/com/securelogin/config/SecurityConfig.java:77 | other paths under "/api" are granted exactly to identities with role USER or ADMIN |
| SecurityConfig.OtherPathsNeedAuthentication | src/main/java/com/securelogin/config/SecurityConfig.java:80 | a path no earlier rule matches is granted exactly to authenticated identities, whatever their roles |
| SecurityConfig.AccessDeniedPageNeedsAuthentication | src/main/java/com/securelogin/config/SecurityConfig.java:118 | the access-denied page is not listed as public, so only authenticated identities reach it |
| SecurityConfig.DenialTargetsAreReachable | src/main/java/com/securelogin/config/SecurityConfig.java:84-120 | whoever is redirected to the login page may open it, and whoever is forwarded to the access-denied page may open that |
| AuthController.UnknownCodesGetDefault | src/main/java/com/securelogin/controller/AuthController.java:116-137 | a code gets the generic "Erro de login" message exactly when it is not one of the eight codes the switch names |
| AuthController.ErrorMessagesIdentifyCodes | src/main/java/com/securelogin/controller/AuthController.java:116-137 | no two named codes share a message, and no other code shares a named code's message |
| AuthController.ConfiguredCodesMessages | src/main/java/com/securelogin/config/SecurityConfig.java:87-120 | the code a failed form login sends ("true") gets the generic message; the entry point's code ("unauthorized") gets the request to log in |
| AuthController.Model.AddAttribute | src/main/java/com/securelogin/controller/AuthController.java:39 | adding an attribute sets that name and keeps the others; adding the same name again overwrites it |
| AuthController.BindingResult.RejectValue | src/main/java/com/securelogin/controller/AuthController.java:75 | appends one field error and leaves the validation outcome as it was |
| AuthController.RedirectAttributes.AddFlashAttribute | src/main/java/com/securelogin/controller/AuthController.java:90-91 | sets one flash attribute and keeps the others |
| AuthController.SignedInSkipsAuthPages | src/main/java/com/securelogin/controller/AuthController.java:32-35 | a signed-in caller not named "anonymousUser" gets "redirect:/dashboard" from both pages with no attribute written; anyone else gets the page |
| AuthController.LoginPageMessages | src/main/java/com/securelogin/controller/AuthController.java:37-50 | the expiry message wins over an error code; otherwise an error code's message is shown; the logout message appears exactly when logout is given; no other attribute changes |
| AuthController.AccessDeniedNamesUser | src/main/java/com/securelogin/controller/AuthController.java:108-114 | the page names the user exactly when an authentication is present, anonymous or not |
| AuthController.RegisterRejectsBadForms | src/main/java/com/securelogin/controller/AuthController.java:69-77 | binding errors, or passwords that do not match, return the form with nothing stored; only the mismatch adds an error, on confirmPassword |
| AuthController.RegisterStoresNewUser | src/main/java/com/securelogin/controller/AuthController.java:79-93 | a matching form with a free username and email adds one user with roles {"USER"}, the form's fields, the encoded password and all four flags set, and redirects to the login page with the success message |
| AuthController.RegisterReportsDuplicates | src/main/java/com/securelogin/controller/AuthController.java:95-104 | a taken username or email puts the service's message on field "username" and stores nothing; only an unexpected failure leads to "redirect:/register" with the generic flash error |
| AuthController.LoginPage | src/main/java/com/securelogin/controller/AuthController.java:31-51 | the handler's writes to the model and its view are what LoginPageMessages and SignedInSkipsAuthPages describe |
| AuthController.RegisterPage | src/main/java/com/securelogin/controller/AuthController.java:54-62 | the handler adds an empty registration form and returns "auth/register", unless signed in |
| AuthController.AccessDeniedPage | src/main/java/com/securelogin/controller/AuthController.java:108-114 | the handler's writes are what AccessDeniedNamesUser describes |
| AuthController.RegisterUser | src/main/java/com/securelogin/controller/AuthController.java:65-105 | the handler's view, field errors, flash attributes and collection are what the three Register lemmas describe, and the service stays consistent |
| DashboardController.FirstFive | src/main/java/com/securelogin/controller/DashboardController.java:39 | a prefix of the list, of length min(5, n) |
| DashboardController.Dashboard | src/main/java/com/securelogin/controller/DashboardController.java:26-43 | fails with "Usuário não encontrado" exactly when no user has the name; otherwise shows "dashboard/index" with that stored user and the 24-hour report |
| DashboardController.Profile | src/main/java/com/securelogin/controller/DashboardController.java:46-56 | fails exactly when no user has the name; otherwise shows "dashboard/profile" with that stored user |
| DashboardController.FirstFiveAreNewest | src/main/java/com/securelogin/controller/DashboardController.java:39 | truncating a newest-first list keeps it newest first, and nothing cut off is newer than anything kept |
| DashboardController.RecentLoginsAreNewestSuccesses | src/main/java/com/securelogin/controller/DashboardController.java:33-39 | the recent logins are the first min(5, n) of the user's n successful attempts, each one a success of that user, and no success left out is newer than any shown |
| Script.StrengthRange | src/main/resources/static/js/script.js:122-127 | the score is a multiple of 10 in [0, 100]; it is 100 exactly with at least eight characters and all four character classes |
| Script.FeedbackBands | src/main/resources/static/js/script.js:129-135 | each score gets one of three bands: weak exactly below 40, strong exactly from 70; a higher score never gets a lower band |
| Script.StrengthMonotone | src/main/resources/static/js/script.js:122-135 | typing more characters never lowers the score or the band |
| Script.SampleStrengthsDigits | src/main/resources/static/js/script.js:122-135 | "123" scores 10 and "123456" 30, both weak |
| Script.SampleStrengthsLetters | src/main/resources/static/js/script.js:122-135 | "password" scores 60 (medium) and "Password" 80 (strong) |
| Script.SampleStrengthsMixed | src/main/resources/static/js/script.js:122-135 | "password123" scores 70 (strong) and "Password123!" 100 |
| Script.PatternGivesShape | src/main/resources/static/js/script.js:241-244 | an accepted address has no white space, exactly one '@' with something before it, and a '.' after it that is neither the first nor the last character of the domain |
| Script.ShapeGivesPattern | src/main/resources/static/js/script.js:241-244 | every string of that shape is accepted |
| Script.EmailPatternMeansShape | src/main/resources/static/js/script.js:241-244 | the pattern and the shape agree on every string |
| Script.SimpleEmailAccepted | src/main/resources/static/js/script.js:242 | "test@example.com" is accepted |
| Script.DottedEmailAccepted | src/main/resources/static/js/script.js:242 | "user.name@domain.co.uk" is accepted |
| Script.RejectedWithoutLocalPart | src/main/resources/static/js/script.js:242 | "" and "@example.com" are rejected |
| Script.RejectedWithoutDomain | src/main/resources/static/js/script.js:242 | "test@" is rejected |
| Script.RejectedWithoutDomainName | src/main/resources/static/js/script.js:242 | "test@.com" is rejected |
| Script.RejectedWithoutTopLevelDomain | src/main/resources/static/js/script.js:242 | "test@example." is rejected |
| Script.SpaceInEmailRejected | src/main/resources/static/js/script.js:242 | "test space@example.com" is rejected |
| Script.CoercedNonStringsRejected | src/main/resources/static/js/script.js:241-243 | null, undefined and 123, which `test` converts to "null", "undefined" and "123", are rejected |
| Script.TrimStartSpec | src/main/resources/static/js/script.js:306 | the leading part that trim drops is white space, and what is left does not start with white space |
| Script.TrimEndSpec | src/main/resources/static/js/script.js:306 | the trailing part that trim drops is white space, and what is left does not end with white space |
| Script.TrimEmptyIffBlank | src/main/resources/static/js/script.js:306 | a value trims to empty exactly when every character is white space |
| Script.FilledMeansNotBlank | src/main/resources/static/js/script.js:306 | a required field counts as filled exactly when its value has a character other than white space |
| Script.ValidateMarks | src/main/resources/static/js/script.js:305-313 | elements that are not required are untouched; an empty required one gains is-invalid and keeps any is-valid; a filled one loses is-invalid and gains is-valid; nothing else about an element changes |
| Script.ResultMatchesMarks | src/main/resources/static/js/script.js:303-315 | the result is true exactly when, afterwards, no required element carries is-invalid |
| Script.ValidateTwice | src/main/resources/static/js/script.js:305-313 | validating one element twice is validating it once |
| Script.ValidateIdempotent | src/main/resources/static/js/script.js:301-316 | validating a form twice is validating it once |
| Script.ClearRemovesMarks | src/main/resources/static/js/script.js:321-326 | clearing removes both marks from every element and changes nothing else, so it undoes every mark validation made |
| Script.ValidateForm | src/main/resources/static/js/script.js:301-316 | the in-place loop leaves each element as ValidateMarks describes, and returns whether every required element was filled |
| Script.ClearValidation | src/main/resources/static/js/script.js:321-326 | the in-place loop leaves the form as ClearRemovesMarks describes |
| Script.Lower | src/main/resources/static/js/script.js:21 | lower-casing keeps the length and maps each character on its own |
| Script.ReplaceFirstSpec | src/main/resources/static/js/script.js:21 | a string-pattern replace substitutes only the first occurrence |
| Script.ReplaceFirstAbsent | src/main/resources/static/js/script.js:21 | with no occurrence, the string is returned unchanged |
| Script.StripToggle | src/main/resources/static/js/script.js:21 | removing the first "toggle" from "toggle" followed by a field id leaves that field id |
| Script.TargetIdAsWrittenLowersAll | src/main/resources/static/js/script.js:21 | as written, the whole id after "toggle" is lower-cased |
| Script.TargetIdStripsPrefix | src/main/resources/static/js/script.js:21 | with the intended derivation, only the first letter of the id after "toggle" is lowered |
| Script.PasswordToggleFindsItsField | src/main/resources/static/js/script.js:21-22 | both derivations send "togglePassword" to the "password" field |
| Script.ConfirmToggleMissesItsField | src/main/resources/static/js/script.js:21-22 | as written, "toggleConfirmPassword" targets "confirmpassword", which is not the id of either password field |
| Script.ConfirmToggleFindsItsField | src/main/resources/static/js/script.js:21-22 | the intended derivation sends "toggleConfirmPassword" to "confirmPassword" |
| Script.ClickFlips | src/main/resources/static/js/script.js:25-33 | a click swaps password and text, the icon always matches the new type, and two clicks restore the type and its icon |
| Script.ToggleClick | src/main/resources/static/js/script.js:20-34 | with both the field and the icon present, the handler flips them; with either missing, nothing changes |

## Left out

- Null `username` and `email`: they are plain strings here. The store invariant needs them, and every caller sets them.
- UserService.CreateUserOutcome returns the stored user as a new value. Java's `createUser` (UserService.java:51-57) sets roles, password and both stamps on the caller's own `User` object before saving it. The model does not capture that aliasing: after the call, the caller's object in Java already holds the encoded password and the stamps. No caller in the core reads that object afterwards.
- Script.IsValidEmail takes strings only. JavaScript's `test` converts other arguments to strings, and the model covers that conversion only for the three values in Script.CoercedNonStringsRejected.
- Null `roles` on a stored user: UserService.HasRole requires every stored user to have a role set, where Java would throw NullPointerException at UserService.java:155. Every writer keeps roles set: createUser, updateUser, and MongoConfig's admin seeding.
- Two clock reads merged into one: `User`'s five-argument constructor (User.java:77-78) and `createUser` (UserService.java:56-57) each call `LocalDateTime.now()` twice, so in Java createdAt and updatedAt can differ slightly. The model reads the clock once, as the parameter `now`, so UserEntity.NewUser and UserService.CreateUserStores give both stamps the same value.
- UserEntity.Encode: a concrete injective tagging stands in for BCrypt. It is total, so it encodes an absent password as well. The real `BCryptPasswordEncoder` rejects a null raw password with an exception.
- UserService.BootstrappedAdmin: because `Encode` is total, the model stores an admin with the encoding of no password. With the real encoder, `createDefaultAdminIfNotExists` would raise instead of storing an admin.
- Hashing cost, salts and `matches` (password verification): these are library code and not part of this model.
- Document ids: these are natural numbers from a counter, not MongoDB ObjectId strings. Consequently `UnknownId` messages print the number.
- UserRepository.UserStore.FindByIsActiveTrue and FindByRole return sets: the list order MongoDB returns is not modelled.
- `findLockedUsers`, `findByLoginAttemptsGreaterThan` and `findByCreatedAtBetween`: the first two query fields `User` does not have, and nothing calls any of the three.
- `MAX_LOGIN_ATTEMPTS` and `LOCK_TIME_MINUTES`: kept as constants only, because no code reads them. There is no automatic lockout to model.
- The service's `findById`, `findByUsername`, `findAllUsers` and `findActiveUsers`: these delegate directly to the repository finders above, so they are not repeated.
- UserService.UserService.UpdateUser applies the setters as one record update after the duplicate-email check. The source sets fullName before the check. The difference cannot be observed, because the loaded copy is discarded when the check throws.
- The `id` of a `LoginAttempt`: no query reads it, so it is not modelled.
- An attempt built with the no-argument constructor and setters: the datatype takes any `attemptTime`, so a back-dated attempt is simply a value with an earlier time.
- LoginAttemptService.SecurityReport rates: computed exactly over `real`, so the rounding of Java's `double` is not modelled.
- `long` counters and `int hours`: unbounded here, and overflow cannot happen at any realistic count.
- Result order of the unsorted queries: LoginAttemptRepository.FindRecentAttempts, FindFailedAttemptsSince and FindFailedAttemptsByIpSince, and LoginAttemptService.GetRecentFailedAttemptsByIp, keep insertion order, and LoginAttemptRepository.RecentAppend and FailedAppend place a new attempt at the end. These `@Query` finders do not sort, and the order MongoDB returns is unspecified. Only membership and multiplicity are the source's promise.
- Concurrency: races between reading and saving in `updateUser`, and the two report queries not coming from one snapshot.
- SecurityConfig: the pattern matcher is simplified as stated above. Query strings, trailing slashes, path normalisation and HTTP methods are not modelled.
- SecurityConfig: CSRF, session limits, security headers, `DaoAuthenticationProvider` and `AuthenticationManager` are framework configuration without decision logic.
- SecurityConfig: the mapping from role names to authorities (`ROLE_` prefixes, `UserDetails`) is not shown in the source. Roles are plain strings compared for membership.
- AuthController: the bean validation of `UserRegistrationDto` is not part of this model. `bindingResult.hasErrors()` is an input.
- AuthController.RegisterUser: an exception from `createUser` other than `IllegalArgumentException` is the boolean `unexpectedFailure`. Such a failure writes nothing.
- Logging, view rendering and how flash attributes travel across the redirect are not modelled.
- The repository's own tests of the password-strength score (src/test/js/password-strength.test.js:9-39) expect "password123" to be medium, "password" to score 40 and "Password" 60. The code scores them 70 (strong), 60 and 80. The model follows the code, as Script.SampleStrengthsLetters and Script.SampleStrengthsMixed state.
- MongoConfig's own admin seeding (src/main/java/com/securelogin/config/MongoConfig.java:73) gives its admin the encoded password "admin123". `UserService.createDefaultAdminIfNotExists` (src/main/java/com/securelogin/service/UserService.java:160-172) sets no password, and the model follows the service.
- script.js: string lengths count characters, not UTF-16 code units. Lower-casing covers ASCII letters only. Both agree with JavaScript on the ASCII ids and passwords involved.
- script.js UI plumbing: tooltips, alert dismissal timers, card hover styles, toasts, button loading, `confirmAction`, `DOMUtils`, date formatting, the live password-match check and the strength indicator. All of it is DOM and timer glue.
- Script.ValidateForm works on the array of elements the selector returns. The `querySelectorAll` selection itself is the predicate `Checked`.
- `MongoConfig` and database provisioning scripts: these are collection setup, not logic of the core.

## Findings

| source | as written | input that shows it | evidently intended | confidence | as-written member | corrected member |
|---|---|---|---|---|---|---|
| src/main/resources/static/js/script.js:21 | the target id is the button id with "toggle" removed, lower-cased entirely | button "toggleConfirmPassword" gives "confirmpassword", but the field's id is "confirmPassword" (script.js:56), so the confirmation field's toggle finds no field and does nothing | lower-case only the first letter after "toggle", giving "confirmPassword" | high for the derivation, not executed | Script.TargetIdAsWritten, Script.ConfirmToggleMissesItsField | Script.TargetId, Script.ConfirmToggleFindsItsField |
