# Order-it-app authentication, modelled in Dafny

This project models how the Order-it-app ASP.NET application registers users,
logs them in and logs them out. It covers:

- the identifier normalisation (`Trim().ToLower()`), in `text.dfy`;
- the MongoDB user service, as lookups over a `seq<User>` in insertion order,
  in `user_store.dfy`;
- the login sub-form's `[Required]` rules, in `forms.dfy`;
- the three POST actions of the account controller, as pure functions
  returning a `Response`, in `account.dfy`. A `Response` holds the store
  afterwards, the sign-in or sign-out requests made to the cookie handler,
  the one-shot notice, and the view or redirect;
- a sequence of requests over the store and the client's cookie, in `flow.dfy`.

The password hasher (`HashPassword`, `VerifyHashedPassword` with its
three-valued result), `Url.IsLocalUrl` and the sign-up sub-form's validation
rules are function-valued parameters. The id the store assigns on insert and
the clock are plain parameters of a registration.

Modules: `Wrappers` (Option), `Text`, `Users` (the record of Models/User.cs),
`UserStore`, `Forms`, `Account`, `AuthFlow`.

## Model

| member | source | states |
|---|---|---|
| Text.Trim | Controllers/AccountController.cs:60 | the result is a slice of the input with only white space cut from the two ends, and none left at either end |
| Text.Normalize | Controllers/AccountController.cs:60 | the result has no surrounding white space and no upper-case letter, and equals the trimmed input up to letter case |
| Text.TrimUnique | Controllers/AccountController.cs:60 | `Trim(s)` is the one slice of `s` that drops only white space from the two ends and leaves none at either end |
| Text.NormalizeIdempotent | Controllers/AccountController.cs:135-136 | trimming then lowercasing a second time changes nothing |
| Text.NormalizedIffFixedPoint | Controllers/AccountController.cs:132-136 | a string is unchanged by normalisation exactly when it has no surrounding white space and no upper-case letter |
| Text.NormalizeEqualIff | Controllers/AccountController.cs:58-60 | two identifiers normalise to the same string exactly when, once trimmed, they differ only in letter case |
| Text.BlankIffTrimEmpty | Models/LoginViewModel.cs:7-12 | a value is blank, and so fails `[Required]`, exactly when trimming leaves nothing |
| Text.NormalizeExample | Controllers/AccountController.cs:135-136 | `"  Foo@Bar.com "` normalises to `"foo@bar.com"` |
| UserStore.FindFirst | Data/UserService.cs:30-44 | `FirstOrDefaultAsync` finds a user exactly when one holds the key, and it returns the earliest such user |
| UserStore.GetByEmail | Data/UserService.cs:30-36 | the result is a stored user whose email equals the argument exactly, with no case folding; null exactly when no stored email equals it |
| UserStore.GetByUserName | Data/UserService.cs:38-44 | the result is a stored user whose user name equals the argument exactly; null exactly when no stored user name equals it |
| UserStore.GetByIdentifier | Data/UserService.cs:46-58 | the identifier is lowercased; any result holds it as email or user name; when some user holds it as email, the result is an email match; when none does, the result is the user-name lookup's |
| UserStore.ExistsByEmailOrUserName | Data/UserService.cs:65-73 | true exactly when some stored user has the given email or the given user name |
| UserStore.CreateUser | Data/UserService.cs:60-63 | the user is added after the existing ones, every existing user is unchanged, and the existence check then finds it |
| UserStore.LookupAgreesWithExists | Data/UserService.cs:46-73 | the identifier lookup is null exactly when the existence check on the lowercased identifier, used for both fields, is false |
| UserStore.GetByIdentifierLowerInvariant | Data/UserService.cs:48-50 | looking up `x` or its lowercase form gives the same result |
| UserStore.EmailOwnerPreferred | Data/UserService.cs:52-57 | when one user's email is another's user name, looking up that string returns the email owner |
| UserStore.GetByIdentifierDoesNotTrim | Data/UserService.cs:48-50 | over normalised entries, an identifier starting with white space finds nobody, because the lookup lowercases but does not trim |
| UserStore.UniqueEmailLookup | Data/UserService.cs:30-36 | with unique emails, a lookup by a stored email returns exactly that user |
| UserStore.UniqueUserNameLookup | Data/UserService.cs:38-44 | with unique user names, a lookup by a stored user name returns exactly that user |
| UserStore.CreateUserKeepsLookups | Data/UserService.cs:60-63 | an insert does not change what an existing match resolves to; a key nobody held resolves to the new user if it holds that key, and to null otherwise |
| Forms.ValidateLogin | Models/LoginViewModel.cs:7-12 | the login sub-form has no errors exactly when both fields are present and not blank; each failing field gives its own `Login.*` error, and no other key appears |
| Forms.DefaultLoginInvalid | Models/LoginViewModel.cs:8-12 | a login sub-form left at its defaults (both empty) fails on both fields |
| Forms.AnyIdentifierAccepted | Models/LoginViewModel.cs:7-8 | the user-name field has no format rule: any non-blank text, a user name or an email, is accepted |
| Forms.ValidLoginIdentifierNonEmpty | Controllers/AccountController.cs:55-60 | a valid login sub-form has an identifier that stays non-empty after normalisation |
| Account.AfterLogin | Controllers/AccountController.cs:86-92 | after sign-in, the redirect goes to the return URL exactly when it is non-empty and local; otherwise it goes to Home/Index |
| Account.Login | Controllers/AccountController.cs:41-98 | the store is untouched; at most one sign-in happens, and only for a valid form whose normalised identifier resolves to a stored user whose verification is `Success`, with that user's id, user name and email as claims; sign-in happens exactly when the answer is a redirect; an invalid form redisplays its own errors, and a valid form that fails shows the single generic error |
| Account.LookUpLogin | Controllers/AccountController.cs:60-61 | the login lookup resolves the trimmed, lowercased identifier: any result holds it as email or user name; an email match wins; otherwise the user-name lookup decides |
| Account.NewUser | Controllers/AccountController.cs:135-150 | the stored user has a normalised user name and email equal to the submitted ones up to case and surrounding white space, the hasher's output for the password of the unsaved user (empty id) as its hash, and the store-assigned id |
| Account.Register | Controllers/AccountController.cs:112-162 | never signs in; the store grows by exactly that new user when the sign-up form is valid and neither normalised key is taken, and is untouched otherwise; success redirects to Account/Login with the notice; a collision gives the one duplicate message |
| Account.Logout | Controllers/AccountController.cs:168-172 | a single sign-out, the store untouched, a redirect to Account/Login |
| Account.LoginSignsInExactlyOnSuccess | Controllers/AccountController.cs:66-95 | for a valid form, sign-in happens if and only if the identifier resolves and verification is exactly `Success` |
| Account.RehashNeededDoesNotSignIn | Controllers/AccountController.cs:68-72 | a `SuccessRehashNeeded` verification gets the generic error and no sign-in |
| Account.LoginFailureUniform | Controllers/AccountController.cs:66-97 | an unknown identifier and a failed verification give the same page with the same single error, and neither signs in |
| Account.LoginValidatesOnlyLoginForm | Controllers/AccountController.cs:46-55 | the answer does not depend on the sign-up sub-form or the prior validation state; an invalid login form gets the same answer whatever the store and the hasher |
| Account.RegisterValidatesOnlySignupForm | Controllers/AccountController.cs:117-130 | the answer does not depend on the login sub-form or the prior validation state; an invalid sign-up form inserts nothing |
| Account.RegisterPreservesStoreInvariant | Controllers/AccountController.cs:132-152 | registration keeps user names unique, emails unique, and every stored key normalised |
| Account.RegisterRejectsCaseVariant | Controllers/AccountController.cs:132-142 | a sign-up whose user name or email matches a stored one up to case and surrounding white space is refused with the duplicate message, and the store is unchanged |
| Account.LoginResolvesEmailVariant | Controllers/AccountController.cs:58-61 | an identifier that differs from a stored email only in case and surrounding white space resolves to that user |
| Account.LoginResolvesUserNameVariant | Controllers/AccountController.cs:58-61 | an identifier that differs from a stored user name only in case and surrounding white space resolves to that user, provided no user holds that name as an email |
| Account.RegisterThenLogin | Controllers/AccountController.cs:58-155 | registration and login normalise alike: after a successful registration, an identifier that normalises to the new email, or to the new user name when no one holds it as an email, signs in as the new user if the password verifies |
| Account.RegisteredUserResolves | Data/UserService.cs:46-63 | after an insert whose keys were free, an identifier normalising to the new email, or to the new user name when no one holds it as an email, resolves to the new user |
| Account.UserNameShadowedByEmail | Data/UserService.cs:52-57 | uniqueness is per field: a user name equal to a stored email is accepted, and logging in with it then resolves to the email's owner |
| AuthFlow.StepPreservesValid | Controllers/AccountController.cs:138-152 | each action keeps unique, normalised keys and issues a session only for a stored user |
| AuthFlow.RunPreservesValid | Controllers/AccountController.cs:138-152 | over any sequence of requests handled one at a time, user names stay unique, emails stay unique, keys stay normalised, and any session belongs to a stored user |
| AuthFlow.RunOnlyAppends | Data/UserService.cs:60-63 | no sequence of requests removes or alters a stored user |
| AuthFlow.LogoutEndsSession | Controllers/AccountController.cs:168-172 | after logout there is no session and the store is as before |
| AuthFlow.RegisterKeepsSession | Controllers/AccountController.cs:152-155 | registration, successful or not, leaves the session as it was |
| AuthFlow.AliceScenario | Controllers/AccountController.cs:132-155 | registering "Alice" / "A@x.com" stores "alice" / "a@x.com"; a login as "ALICE" or "A@X.COM" with the same password then signs in as that user |

## Code versus stated intent

The model follows the code where it differs from what its comments and the
framework's documentation lead one to expect:

- ASP.NET Core Identity documents `PasswordVerificationResult.SuccessRehashNeeded`
  as a successful verification whose stored hash uses an outdated format and
  should be rehashed. The code tests for `Success` only
  (Controllers/AccountController.cs:72), so a correct password under an
  outdated hash fails with the generic error
  (`Account.RehashNeededDoesNotSignIn`).
- The lookup is documented as case-insensitive (Data/UserService.cs:11), and
  it lowercases its argument again as a safeguard (Data/UserService.cs:48-50). Neither comment
  mentions trimming, and the lookup does not trim, as
  `UserStore.GetByIdentifierDoesNotTrim` shows. Login trims before calling it
  (Controllers/AccountController.cs:60), so login is not affected.
- Uniqueness is per field. A new user name may equal a stored email, and the
  lookup then prefers the email owner (`Account.UserNameShadowedByEmail`).
- `[Required]` rejects a null, empty or white-space-only string. This is how
  .NET's `RequiredAttribute` behaves when empty strings are not allowed. So a
  blank login field is invalid as well as a missing or empty one.

## Left out

- MongoDB driver, configuration and async I/O (Data/UserService.cs:24-28): the collection is a sequence. Store failures are not modelled: the code lets the driver's exceptions propagate, and every store call in the model succeeds.
- Password hashing internals (`PasswordHasher<User>`, Startup.cs:37-38): hashing and verification are parameters. The real hasher draws a fresh random salt on every call; the model abstracts the salt into the hash parameter, so one run hashes a given user and password the same way each time. No property proved here depends on this.
- Account.Register: states that the stored hash is the hasher's output for the submitted password; it does not state that the hash differs from the plaintext, because that is a property of the hasher parameter.
- Cookie authentication (Startup.cs:41-49): signing, HttpOnly, sliding 60-minute expiry and reading claims back from a cookie are framework behaviour. Sign-in and sign-out are events, and the cookie is the claims it holds.
- `Url.IsLocalUrl` (Controllers/AccountController.cs:86): a parameter.
- `ModelState`, `ViewData`, `TempData` and the view/redirect result objects: replaced by `ModelError`, the `ShowView` fields and the `notice` field.
- The sign-up sub-form and `AuthViewModel` validation attributes: these classes are not part of this model, so their errors are a parameter. A sign-up form that passes them is taken to have non-null fields; the code would throw on a null field at `Trim()`.
- The `[Authorize]`, `[AllowAnonymous]` and `[ValidateAntiForgeryToken]` filters: these are framework behaviour. An unauthenticated logout would be challenged to the login path instead of signing out. Either way no session remains.
- The GET `Login` and `Register` actions (Controllers/AccountController.cs:28-35, 100-106): they only render the page.
- Concurrency: two registrations can both pass the check at Controllers/AccountController.cs:138 before either inserts at :152. Requests are handled one at a time here, so uniqueness is claimed only for sequential calls.
- Culture-sensitive `ToLower`: only ASCII letters are lowered. `Trim` uses the fixed white-space set of `char.IsWhiteSpace`.
- Logging and console output (Controllers/AccountController.cs:53, 63-64, 69-70).
- `DateTime.UtcNow` and `ObjectId` assignment: both are parameters of a registration, and distinct ids are not tracked.
- Orders CRUD, the Home redirect, the Startup pipeline and the page script: plumbing and UI outside authentication.
