/**
  The account actions over a sequence of requests: the user store and the
  client's session cookie evolve one request at a time. Requests are handled
  one after another, so the duplicate check and the insert of a registration
  never interleave with another request.
 */
module AuthFlow {
  import opened Wrappers
  import opened Text
  import opened Users
  import opened UserStore
  import opened Forms
  import opened Account

  /** The capabilities the controller is given: the hasher, `Url.IsLocalUrl`, and the sign-up rules. */
  datatype Services = Services(hash: Hasher, verify: Verifier, isLocalUrl: LocalUrlCheck, signupRules: SignupRules)

  /** A POST to one of the account actions, with what the store and clock supply for a registration. */
  datatype Request =
    | LoginPost(model: AuthViewModel, returnUrl: Option<string>, bindingErrors: seq<ModelError>)
    | RegisterPost(model: AuthViewModel, bindingErrors: seq<ModelError>, newId: ObjectId, now: Timestamp)
    | LogoutPost

  /** The users collection and the claims of the client's session cookie, if it holds one. */
  datatype State = State(users: seq<User>, session: Option<seq<Claim>>)

  function Handle(services: Services, users: seq<User>, request: Request): Response {
    match request
    case LoginPost(model, returnUrl, bindingErrors) =>
      Login(users, model, returnUrl, bindingErrors, services.verify, services.isLocalUrl)
    case RegisterPost(model, bindingErrors, newId, now) =>
      Register(users, model, bindingErrors, services.signupRules, services.hash, newId, now)
    case LogoutPost => Logout(users)
  }

  /** The cookie after the handler carries out `events` in order: the last one decides. */
  function ApplyEvents(session: Option<seq<Claim>>, events: seq<SessionEvent>): Option<seq<Claim>> {
    if events == [] then session
    else
      match events[|events| - 1]
      case SignIn(claims) => Some(claims)
      case SignOut => None
  }

  function Step(services: Services, st: State, request: Request): State {
    var r := Handle(services, st.users, request);
    State(r.users, ApplyEvents(st.session, r.events))
  }

  function Run(services: Services, st: State, requests: seq<Request>): State
    decreases |requests|
  {
    if requests == [] then st else Run(services, Step(services, st, requests[0]), requests[1..])
  }

  /** A cookie carries the claims of some stored user. */
  ghost predicate SessionOfStoredUser(st: State) {
    st.session.Some? ==> exists u :: u in st.users && st.session.value == ClaimsOf(u)
  }

  /** Unique, normalised keys, and a session only for a stored user. */
  ghost predicate Valid(st: State) {
    UniqueKeys(st.users) && AllNormalized(st.users) && SessionOfStoredUser(st)
  }

  /** An empty store with no session is valid. */
  lemma InitialValid()
    ensures Valid(State([], None))
  {
  }

  /** Each action keeps the store invariant and issues sessions only for stored users. */
  lemma StepPreservesValid(services: Services, st: State, request: Request)
    requires Valid(st)
    ensures Valid(Step(services, st, request))
  {
    var r := Handle(services, st.users, request);
    match request
    case LoginPost(model, returnUrl, bindingErrors) =>
    case RegisterPost(model, bindingErrors, newId, now) =>
      RegisterPreservesStoreInvariant(st.users, model, bindingErrors, services.signupRules, services.hash, newId, now);
      if st.session.Some? {
        var u :| u in st.users && st.session.value == ClaimsOf(u);
        assert u in r.users;
      }
    case LogoutPost =>
  }

  /** Sequential requests keep user names unique, emails unique, keys normalised, sessions backed by a stored user. */
  lemma {:induction false} RunPreservesValid(services: Services, st: State, requests: seq<Request>)
    requires Valid(st)
    ensures Valid(Run(services, st, requests))
    decreases |requests|
  {
    if requests != [] {
      StepPreservesValid(services, st, requests[0]);
      RunPreservesValid(services, Step(services, st, requests[0]), requests[1..]);
    }
  }

  /** No request removes or alters a stored user: the store only grows at its end. */
  lemma {:induction false} RunOnlyAppends(services: Services, st: State, requests: seq<Request>)
    ensures var users := Run(services, st, requests).users;
            |st.users| <= |users| && users[..|st.users|] == st.users
    decreases |requests|
  {
    if requests != [] {
      var next := Step(services, st, requests[0]);
      assert |st.users| <= |next.users| && next.users[..|st.users|] == st.users;
      RunOnlyAppends(services, next, requests[1..]);
    }
  }

  /** Logout ends the session and leaves the store alone. */
  lemma LogoutEndsSession(services: Services, st: State)
    ensures Step(services, st, LogoutPost) == State(st.users, None)
  {
  }

  /** Registration never changes the session, whether it succeeds or not. */
  lemma RegisterKeepsSession(services: Services, st: State, model: AuthViewModel, bindingErrors: seq<ModelError>,
                             newId: ObjectId, now: Timestamp)
    ensures Step(services, st, RegisterPost(model, bindingErrors, newId, now)).session == st.session
  {
  }

  /**
    A registration scenario: "Alice" / "A@x.com" is stored as
    "alice" / "a@x.com", after which logging in as "ALICE" or as "A@X.COM"
    with the same password signs in as that user.
   */
  lemma AliceScenario(services: Services, newId: ObjectId, now: Timestamp, identifier: string)
    requires identifier == "ALICE" || identifier == "A@X.COM"
    requires services.signupRules(SignupViewModel("Alice", "A@x.com", "p@ss1")) == []
    requires var u := NewUser(SignupViewModel("Alice", "A@x.com", "p@ss1"), services.hash, newId, now);
             services.verify(u, u.passwordHash, "p@ss1") == Success
    ensures var signup := SignupViewModel("Alice", "A@x.com", "p@ss1");
            var u := NewUser(signup, services.hash, newId, now);
            var requests := [RegisterPost(AuthViewModel(DefaultLogin, signup), [], newId, now),
                             LoginPost(AuthViewModel(LoginViewModel(Some(identifier), Some("p@ss1")), signup), None, [])];
            && u.userName == "alice" && u.email == "a@x.com"
            && Run(services, State([], None), requests) == State([u], Some(ClaimsOf(u)))
  {
    var signup := SignupViewModel("Alice", "A@x.com", "p@ss1");
    var u := NewUser(signup, services.hash, newId, now);
    var register := RegisterPost(AuthViewModel(DefaultLogin, signup), [], newId, now);
    var login := LoginPost(AuthViewModel(LoginViewModel(Some(identifier), Some("p@ss1")), signup), None, []);
    AliceNormalizes();
    assert Step(services, State([], None), register) == State([u], None);
    AliceLogsIn(services, newId, now, identifier);
    RunTwo(services, State([], None), register, login);
  }

  /** The login half of the scenario, once the store holds the registered user alone. */
  lemma AliceLogsIn(services: Services, newId: ObjectId, now: Timestamp, identifier: string)
    requires identifier == "ALICE" || identifier == "A@X.COM"
    requires services.signupRules(SignupViewModel("Alice", "A@x.com", "p@ss1")) == []
    requires var u := NewUser(SignupViewModel("Alice", "A@x.com", "p@ss1"), services.hash, newId, now);
             services.verify(u, u.passwordHash, "p@ss1") == Success
    ensures var signup := SignupViewModel("Alice", "A@x.com", "p@ss1");
            var u := NewUser(signup, services.hash, newId, now);
            var login := LoginPost(AuthViewModel(LoginViewModel(Some(identifier), Some("p@ss1")), signup), None, []);
            Step(services, State([u], None), login) == State([u], Some(ClaimsOf(u)))
  {
    var signup := SignupViewModel("Alice", "A@x.com", "p@ss1");
    var u := NewUser(signup, services.hash, newId, now);
    var form := AuthViewModel(LoginViewModel(Some(identifier), Some("p@ss1")), signup);
    AliceNormalizes();
    assert !IsBlank(identifier) by {
      assert !IsWhiteSpace(identifier[0]);
    }
    assert !IsBlank("p@ss1") by {
      assert !IsWhiteSpace("p@ss1"[0]);
    }
    RegisterThenLogin([], signup, services.signupRules, services.hash, newId, now, identifier, "p@ss1",
                      services.verify, services.isLocalUrl, None);
    assert Register([], AuthViewModel(DefaultLogin, signup), [], services.signupRules, services.hash, newId, now).users == [u];
    var r := Login([u], form, None, [], services.verify, services.isLocalUrl);
    assert r.users == [u] && r.events == [SignIn(ClaimsOf(u))];
    assert Handle(services, [u], LoginPost(form, None, [])) == r;
  }

  /** Two requests in a row are two steps. */
  lemma RunTwo(services: Services, st: State, first: Request, second: Request)
    ensures Run(services, st, [first, second]) == Step(services, Step(services, st, first), second)
  {
    var s1 := Step(services, st, first);
    assert [first, second][1..] == [second];
    assert Run(services, st, [first, second]) == Run(services, s1, [second]);
    assert [second][1..] == [];
    assert Run(services, s1, [second]) == Run(services, Step(services, s1, second), []);
  }

  /** The literals of the scenario, normalised. */
  lemma AliceNormalizes()
    ensures Normalize("Alice") == "alice" && Normalize("ALICE") == "alice"
    ensures Normalize("A@x.com") == "a@x.com" && Normalize("A@X.COM") == "a@x.com"
  {
    NormalizeLiteral("Alice", "alice");
    NormalizeLiteral("ALICE", "alice");
    NormalizeLiteral("A@x.com", "a@x.com");
    NormalizeLiteral("A@X.COM", "a@x.com");
  }

  /** Normalising a literal with no surrounding white space only lowers its ASCII letters. */
  lemma NormalizeLiteral(s: string, lowered: string)
    requires |s| > 0 && !IsWhiteSpace(s[0]) && !IsWhiteSpace(s[|s| - 1])
    requires ToLower(s) == lowered
    ensures Normalize(s) == lowered
  {
  }
}
