/**
  The account controller's POST actions (Controllers/AccountController.cs) as
  pure decisions over the user store.

  Each action returns a `Response`: the store afterwards, the requests it makes
  of the cookie handler (sign in with claims, sign out), the one-shot notice it
  leaves for the next page, and the view or redirect it answers with. The
  password hasher and `Url.IsLocalUrl` are parameters.
 */
module Account {
  import opened Wrappers
  import opened Text
  import opened Users
  import opened UserStore
  import opened Forms

  /** `PasswordVerificationResult`. */
  datatype Verification = Failed | Success | SuccessRehashNeeded

  /** `IPasswordHasher<User>.HashPassword(user, password)`. */
  type Hasher = (User, string) -> string

  /** `IPasswordHasher<User>.VerifyHashedPassword(user, hashedPassword, providedPassword)`. */
  type Verifier = (User, string, string) -> Verification

  /** `Url.IsLocalUrl(url)`. */
  type LocalUrlCheck = string -> bool

  datatype ClaimType = NameIdentifier | Name | EmailClaim

  datatype Claim = Claim(kind: ClaimType, value: string)

  /** A request to the cookie authentication handler. */
  datatype SessionEvent = SignIn(claims: seq<Claim>) | SignOut

  /** `ViewData["Mode"]`: which tab of the combined page is shown. */
  datatype Mode = LoginMode | RegisterMode

  datatype ActionResult =
    | ShowView(viewName: string, mode: Mode, returnUrl: Option<string>, errors: seq<ModelError>)
    | Redirect(url: string)
    | RedirectToAction(action: string, controller: string)

  datatype Response = Response(users: seq<User>, events: seq<SessionEvent>, notice: Option<string>, result: ActionResult)

  const InvalidCredentials := "Invalid username or password."
  const DuplicateAccount := "Username or email already registered."
  const RegistrationNotice := "Registration successful. Please login."

  /** The claims of the cookie issued for `u`: its id, its user name and its email. */
  function ClaimsOf(u: User): seq<Claim> {
    [Claim(NameIdentifier, u.id), Claim(Name, u.userName), Claim(EmailClaim, u.email)]
  }

  /** Where a signed-in user goes: the return URL if it is non-empty and local, otherwise Home/Index. */
  function AfterLogin(returnUrl: Option<string>, isLocalUrl: LocalUrlCheck): (r: ActionResult)
    ensures r.Redirect? || r == RedirectToAction("Index", "Home")
    ensures r.Redirect? <==> returnUrl.Some? && returnUrl.value != "" && isLocalUrl(returnUrl.value)
    ensures r.Redirect? ==> r.url == returnUrl.value
  {
    if returnUrl.Some? && returnUrl.value != "" && isLocalUrl(returnUrl.value) then Redirect(returnUrl.value)
    else RedirectToAction("Index", "Home")
  }

  /** The login page shown again with `errors`. */
  function LoginPage(returnUrl: Option<string>, errors: seq<ModelError>): ActionResult {
    ShowView("Login", LoginMode, returnUrl, errors)
  }

  /** The combined page shown again on its registration tab with `errors`. */
  function RegisterPage(errors: seq<ModelError>): ActionResult {
    ShowView("Login", RegisterMode, None, errors)
  }

  /** The user the login lookup resolves a submitted identifier to. */
  function LookUpLogin(users: seq<User>, identifier: string): (r: Option<User>)
    ensures r.Some? ==> r.value in users && (r.value.email == Normalize(identifier) || r.value.userName == Normalize(identifier))
    ensures (exists u :: u in users && u.email == Normalize(identifier)) ==> r.Some? && r.value.email == Normalize(identifier)
    ensures (forall u :: u in users ==> u.email != Normalize(identifier)) ==> r == GetByUserName(users, Normalize(identifier))
  {
    ToLowerOfNormalized(identifier);
    GetByIdentifier(users, Normalize(identifier))
  }

  /**
    POST Login. The prior validation state is discarded and only the login
    sub-form validated; a valid form looks the normalised identifier up, and
    only a verification result of exactly `Success` signs in.
   */
  function Login(users: seq<User>, model: AuthViewModel, returnUrl: Option<string>, bindingErrors: seq<ModelError>,
                 verify: Verifier, isLocalUrl: LocalUrlCheck): (r: Response)
    ensures r.users == users && r.notice == None
    ensures r.events == [] || |r.events| == 1
    ensures r.events != [] <==> !r.result.ShowView?
    ensures r.events != [] ==>
              && IsValidLogin(model.login)
              && LookUpLogin(users, model.login.userName.value).Some?
              && var u := LookUpLogin(users, model.login.userName.value).value;
              && u in users
              && verify(u, u.passwordHash, model.login.password.value) == Success
              && r.events == [SignIn(ClaimsOf(u))]
    ensures r.result.ShowView? ==> r.result.viewName == "Login" && r.result.mode == LoginMode && r.result.returnUrl == returnUrl
    ensures r.result.ShowView? && IsValidLogin(model.login) ==> r.result.errors == [ModelError("", InvalidCredentials)]
    ensures !IsValidLogin(model.login) ==> r.result == LoginPage(returnUrl, ValidateLogin(model.login))
    ensures !r.result.ShowView? ==> r.result == AfterLogin(returnUrl, isLocalUrl)
  {
    var errors := ValidateLogin(model.login);
    if errors != [] then
      Response(users, [], None, LoginPage(returnUrl, errors))
    else
      var failed := Response(users, [], None, LoginPage(returnUrl, [ModelError("", InvalidCredentials)]));
      match LookUpLogin(users, model.login.userName.value)
      case None => failed
      case Some(user) =>
        if verify(user, user.passwordHash, model.login.password.value) == Success then
          Response(users, [SignIn(ClaimsOf(user))], None, AfterLogin(returnUrl, isLocalUrl))
        else failed
  }

  /**
    The user a successful registration stores: normalised user name and email,
    the hash the hasher computes for the still unsaved user (whose id is
    `ObjectId.Empty`), and the id the store assigns on insert.
   */
  function NewUser(signup: SignupViewModel, hash: Hasher, newId: ObjectId, now: Timestamp): (u: User)
    ensures u.id == newId && u.createdAt == now
    ensures IsNormalized(u.userName) && IsNormalized(u.email)
    ensures EqualIgnoringCase(Trim(signup.userName), u.userName) && EqualIgnoringCase(Trim(signup.email), u.email)
    ensures u.passwordHash == hash(u.(id := EmptyObjectId, passwordHash := ""), signup.password)
  {
    var draft := User(EmptyObjectId, Normalize(signup.userName), Normalize(signup.email), "", now);
    NormalizeIsNormalized(signup.userName);
    NormalizeIsNormalized(signup.email);
    NormalizeEqualIff(signup.userName, draft.userName);
    NormalizeEqualIff(signup.email, draft.email);
    NormalizedIffFixedPoint(draft.userName);
    NormalizedIffFixedPoint(draft.email);
    TrimOfTrimmed(draft.userName);
    TrimOfTrimmed(draft.email);
    draft.(id := newId, passwordHash := hash(draft, signup.password))
  }

  /** Whether registering `signup` collides with a stored user name or email. */
  function IsDuplicate(users: seq<User>, signup: SignupViewModel): bool {
    ExistsByEmailOrUserName(users, Normalize(signup.email), Normalize(signup.userName))
  }

  /**
    POST Register. Only the sign-up sub-form is validated; a valid form whose
    normalised email or user name is taken is refused with one message that
    does not say which; otherwise exactly one user is inserted, nobody is
    signed in, and the client is sent to the login page.
   */
  function Register(users: seq<User>, model: AuthViewModel, bindingErrors: seq<ModelError>, rules: SignupRules,
                    hash: Hasher, newId: ObjectId, now: Timestamp): (r: Response)
    ensures r.events == []
    ensures r.users == users || r.users == CreateUser(users, NewUser(model.signup, hash, newId, now))
    ensures r.users != users <==> rules(model.signup) == [] && !IsDuplicate(users, model.signup)
    ensures r.users != users ==> r.result == RedirectToAction("Login", "Account") && r.notice == Some(RegistrationNotice)
    ensures r.users == users ==> r.notice == None && r.result.ShowView? && r.result.viewName == "Login" && r.result.mode == RegisterMode
    ensures rules(model.signup) != [] ==> r.result == RegisterPage(rules(model.signup))
    ensures rules(model.signup) == [] && IsDuplicate(users, model.signup) ==> r.result == RegisterPage([ModelError("", DuplicateAccount)])
  {
    var errors := rules(model.signup);
    if errors != [] then
      Response(users, [], None, RegisterPage(errors))
    else if IsDuplicate(users, model.signup) then
      Response(users, [], None, RegisterPage([ModelError("", DuplicateAccount)]))
    else
      Response(CreateUser(users, NewUser(model.signup, hash, newId, now)), [], Some(RegistrationNotice),
               RedirectToAction("Login", "Account"))
  }

  /** POST Logout: sign out and go to the login page; the store is not touched. */
  function Logout(users: seq<User>): (r: Response)
    ensures r.users == users && r.events == [SignOut] && r.notice == None
    ensures r.result == RedirectToAction("Login", "Account")
  {
    Response(users, [SignOut], None, RedirectToAction("Login", "Account"))
  }

  /** Sign-in happens exactly when a valid form's identifier resolves to a user whose verification is `Success`. */
  lemma LoginSignsInExactlyOnSuccess(users: seq<User>, model: AuthViewModel, returnUrl: Option<string>,
                                     bindingErrors: seq<ModelError>, verify: Verifier, isLocalUrl: LocalUrlCheck)
    requires IsValidLogin(model.login)
    ensures var found := LookUpLogin(users, model.login.userName.value);
            Login(users, model, returnUrl, bindingErrors, verify, isLocalUrl).events != []
            <==> found.Some? && verify(found.value, found.value.passwordHash, model.login.password.value) == Success
  {
  }

  /** A correct password whose hash asks for a rehash does not sign in: the check is for `Success` only. */
  lemma RehashNeededDoesNotSignIn(users: seq<User>, model: AuthViewModel, returnUrl: Option<string>,
                                  bindingErrors: seq<ModelError>, verify: Verifier, isLocalUrl: LocalUrlCheck)
    requires IsValidLogin(model.login)
    requires var found := LookUpLogin(users, model.login.userName.value);
             found.Some? && verify(found.value, found.value.passwordHash, model.login.password.value) == SuccessRehashNeeded
    ensures Login(users, model, returnUrl, bindingErrors, verify, isLocalUrl)
         == Response(users, [], None, LoginPage(returnUrl, [ModelError("", InvalidCredentials)]))
  {
  }

  /**
    An unknown identifier and a wrong password answer alike: the same page
    with the same single error, and no sign-in.
   */
  lemma LoginFailureUniform(model: AuthViewModel, returnUrl: Option<string>, bindingErrors: seq<ModelError>,
                            isLocalUrl: LocalUrlCheck,
                            unknownIn: seq<User>, verify1: Verifier,
                            knownIn: seq<User>, verify2: Verifier)
    requires IsValidLogin(model.login)
    requires LookUpLogin(unknownIn, model.login.userName.value).None?
    requires var found := LookUpLogin(knownIn, model.login.userName.value);
             found.Some? && verify2(found.value, found.value.passwordHash, model.login.password.value) != Success
    ensures var r1 := Login(unknownIn, model, returnUrl, bindingErrors, verify1, isLocalUrl);
            var r2 := Login(knownIn, model, returnUrl, bindingErrors, verify2, isLocalUrl);
            && r1.events == [] && r2.events == []
            && r1.result == r2.result == LoginPage(returnUrl, [ModelError("", InvalidCredentials)])
  {
  }

  /**
    Login ignores the sign-up sub-form and the validation state it was handed;
    an invalid login sub-form is answered without consulting the store or the hasher.
   */
  lemma LoginValidatesOnlyLoginForm(login: LoginViewModel, returnUrl: Option<string>, isLocalUrl: LocalUrlCheck,
                                    users1: seq<User>, signup1: SignupViewModel, binding1: seq<ModelError>, verify1: Verifier,
                                    users2: seq<User>, signup2: SignupViewModel, binding2: seq<ModelError>, verify2: Verifier)
    ensures users1 == users2 && verify1 == verify2 ==>
              Login(users1, AuthViewModel(login, signup1), returnUrl, binding1, verify1, isLocalUrl)
              == Login(users2, AuthViewModel(login, signup2), returnUrl, binding2, verify2, isLocalUrl)
    ensures !IsValidLogin(login) ==>
              var r1 := Login(users1, AuthViewModel(login, signup1), returnUrl, binding1, verify1, isLocalUrl);
              var r2 := Login(users2, AuthViewModel(login, signup2), returnUrl, binding2, verify2, isLocalUrl);
              r1.events == r2.events == [] && r1.result == r2.result
  {
  }

  /**
    Register ignores the login sub-form and the validation state it was handed;
    an invalid sign-up sub-form leaves the store as it was.
   */
  lemma RegisterValidatesOnlySignupForm(users: seq<User>, signup: SignupViewModel, rules: SignupRules, hash: Hasher,
                                        newId: ObjectId, now: Timestamp,
                                        login1: LoginViewModel, binding1: seq<ModelError>,
                                        login2: LoginViewModel, binding2: seq<ModelError>)
    ensures Register(users, AuthViewModel(login1, signup), binding1, rules, hash, newId, now)
         == Register(users, AuthViewModel(login2, signup), binding2, rules, hash, newId, now)
    ensures rules(signup) != [] ==> Register(users, AuthViewModel(login1, signup), binding1, rules, hash, newId, now).users == users
  {
  }

  /** A successful registration keeps user names unique, emails unique, and every stored key normalised. */
  lemma RegisterPreservesStoreInvariant(users: seq<User>, model: AuthViewModel, bindingErrors: seq<ModelError>,
                                        rules: SignupRules, hash: Hasher, newId: ObjectId, now: Timestamp)
    requires UniqueKeys(users) && AllNormalized(users)
    ensures var r := Register(users, model, bindingErrors, rules, hash, newId, now);
            UniqueKeys(r.users) && AllNormalized(r.users)
  {
    var r := Register(users, model, bindingErrors, rules, hash, newId, now);
    if r.users != users {
      var u := NewUser(model.signup, hash, newId, now);
      assert r.users == users + [u];
    }
  }

  /**
    A sign-up whose user name or email matches a stored one up to letter case
    and surrounding white space is refused with the duplicate message.
   */
  lemma RegisterRejectsCaseVariant(users: seq<User>, k: nat, model: AuthViewModel, bindingErrors: seq<ModelError>,
                                   rules: SignupRules, hash: Hasher, newId: ObjectId, now: Timestamp)
    requires AllNormalized(users) && k < |users|
    requires rules(model.signup) == []
    requires EqualIgnoringCase(Trim(model.signup.userName), users[k].userName)
          || EqualIgnoringCase(Trim(model.signup.email), users[k].email)
    ensures Register(users, model, bindingErrors, rules, hash, newId, now)
         == Response(users, [], None, RegisterPage([ModelError("", DuplicateAccount)]))
  {
  }

  /**
    A typed identifier that differs from a stored email only in letter case and
    surrounding white space resolves to that user at login.
   */
  lemma LoginResolvesEmailVariant(users: seq<User>, k: nat, identifier: string)
    requires UniqueKeys(users) && AllNormalized(users) && k < |users|
    requires EqualIgnoringCase(Trim(identifier), users[k].email)
    ensures LookUpLogin(users, identifier) == Some(users[k])
  {
    var e := users[k].email;
    assert users[k] in users;
    NormalizedIffFixedPoint(e);
    TrimOfTrimmed(e);
    NormalizeEqualIff(identifier, e);
    ToLowerOfNormalized(identifier);
    UniqueEmailLookup(users, k);
  }

  /**
    A typed identifier that differs from a stored user name only in letter case
    and surrounding white space resolves to that user at login, unless some
    user holds that name as an email.
   */
  lemma LoginResolvesUserNameVariant(users: seq<User>, k: nat, identifier: string)
    requires UniqueKeys(users) && AllNormalized(users) && k < |users|
    requires EqualIgnoringCase(Trim(identifier), users[k].userName)
    requires forall u :: u in users ==> u.email != users[k].userName
    ensures LookUpLogin(users, identifier) == Some(users[k])
  {
    var n := users[k].userName;
    assert users[k] in users;
    NormalizedIffFixedPoint(n);
    TrimOfTrimmed(n);
    NormalizeEqualIff(identifier, n);
    ToLowerOfNormalized(identifier);
    UniqueUserNameLookup(users, k);
  }

  /**
    Register and Login normalise alike: after a successful registration, a
    login whose identifier normalises to the new email (or to the new user
    name, when no stored user holds it as an email) and whose password
    verifies signs in as the new user.
   */
  lemma RegisterThenLogin(users: seq<User>, signup: SignupViewModel, rules: SignupRules, hash: Hasher,
                          newId: ObjectId, now: Timestamp, identifier: string, password: string,
                          verify: Verifier, isLocalUrl: LocalUrlCheck, returnUrl: Option<string>)
    requires rules(signup) == [] && !IsDuplicate(users, signup)
    requires !IsBlank(identifier) && !IsBlank(password)
    requires || Normalize(identifier) == Normalize(signup.email)
             || (Normalize(identifier) == Normalize(signup.userName) && forall u :: u in users ==> u.email != Normalize(identifier))
    requires var u := NewUser(signup, hash, newId, now); verify(u, u.passwordHash, password) == Success
    ensures var stored := Register(users, AuthViewModel(DefaultLogin, signup), [], rules, hash, newId, now).users;
            var form := AuthViewModel(LoginViewModel(Some(identifier), Some(password)), signup);
            Login(stored, form, returnUrl, [], verify, isLocalUrl).events == [SignIn(ClaimsOf(NewUser(signup, hash, newId, now)))]
  {
    var u := NewUser(signup, hash, newId, now);
    RegisteredUserResolves(users, u, identifier);
  }

  /** The user just inserted is found by an identifier normalising to its email, or to its user name when no one holds that as an email. */
  lemma RegisteredUserResolves(users: seq<User>, u: User, identifier: string)
    requires !ExistsByEmailOrUserName(users, u.email, u.userName)
    requires || Normalize(identifier) == u.email
             || (Normalize(identifier) == u.userName && forall v :: v in users ==> v.email != u.userName)
    ensures LookUpLogin(CreateUser(users, u), identifier) == Some(u)
  {
    var key := Normalize(identifier);
    ToLowerOfNormalized(identifier);
    CreateUserKeepsLookups(users, u, EmailField, key);
    CreateUserKeepsLookups(users, u, UserNameField, key);
  }

  /**
    Uniqueness is per field: a sign-up whose user name equals a stored email
    is accepted, and logging in with that name then resolves to the email's
    owner, not to the new user.
   */
  lemma UserNameShadowedByEmail(users: seq<User>, i: nat, model: AuthViewModel, bindingErrors: seq<ModelError>,
                                rules: SignupRules, hash: Hasher, newId: ObjectId, now: Timestamp)
    requires UniqueKeys(users) && AllNormalized(users) && i < |users|
    requires rules(model.signup) == [] && !IsDuplicate(users, model.signup)
    requires users[i].email == Normalize(model.signup.userName)
    ensures var r := Register(users, model, bindingErrors, rules, hash, newId, now);
            r.users == CreateUser(users, NewUser(model.signup, hash, newId, now))
            && LookUpLogin(r.users, model.signup.userName) == Some(users[i])
  {
    var u := NewUser(model.signup, hash, newId, now);
    var stored := CreateUser(users, u);
    RegisterPreservesStoreInvariant(users, model, bindingErrors, rules, hash, newId, now);
    assert stored[|users|] == u && stored[i] == users[i];
    assert u.userName == users[i].email;
    EmailOwnerPreferred(stored, i, |users|);
    ToLowerOfNormalized(model.signup.userName);
  }
}
