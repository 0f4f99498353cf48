/**
  The submitted forms. The login and sign-up pages share one combined form
  (`AuthViewModel`) holding a login sub-form (Models/LoginViewModel.cs) and a
  sign-up sub-form; each action validates only its own sub-form.
 */
module Forms {
  import opened Wrappers
  import opened Text

  /** `ModelState.AddModelError(key, message)`; the key "" marks an error about the whole form. */
  datatype ModelError = ModelError(key: string, message: string)

  /** `LoginViewModel`; a field is `None` when the request left it null. `userName` holds a user name or an email. */
  datatype LoginViewModel = LoginViewModel(userName: Option<string>, password: Option<string>)

  /** The sign-up sub-form; its validation attributes are not part of this model. */
  datatype SignupViewModel = SignupViewModel(userName: string, email: string, password: string)

  datatype AuthViewModel = AuthViewModel(login: LoginViewModel, signup: SignupViewModel)

  /** The errors validating the sign-up sub-form produces (none when it is valid). */
  type SignupRules = SignupViewModel -> seq<ModelError>

  /** A login sub-form as constructed: both properties start as the empty string. */
  const DefaultLogin := LoginViewModel(Some(""), Some(""))

  /** `[Required]` on a string property: null, empty and white-space-only values fail. */
  predicate Required(v: Option<string>) {
    v.Some? && !IsBlank(v.value)
  }

  /** The default message of `[Required]` for a property without a display name. */
  function RequiredMessage(property: string): string {
    "The " + property + " field is required."
  }

  const UserNameRequired := ModelError("Login.UserName", RequiredMessage("UserName"))
  const PasswordRequired := ModelError("Login.Password", RequiredMessage("Password"))

  /** `TryValidateModel(model.Login, "Login")` on a cleared `ModelState`: the errors of the login sub-form alone. */
  function ValidateLogin(login: LoginViewModel): (errors: seq<ModelError>)
    ensures errors == [] <==> Required(login.userName) && Required(login.password)
    ensures UserNameRequired in errors <==> !Required(login.userName)
    ensures PasswordRequired in errors <==> !Required(login.password)
    ensures forall e :: e in errors ==> e.key == "Login.UserName" || e.key == "Login.Password"
  {
    (if Required(login.userName) then [] else [UserNameRequired])
    + (if Required(login.password) then [] else [PasswordRequired])
  }

  predicate IsValidLogin(login: LoginViewModel) {
    ValidateLogin(login) == []
  }

  /** A login sub-form that was never filled in fails on both fields. */
  lemma DefaultLoginInvalid()
    ensures ValidateLogin(DefaultLogin) == [UserNameRequired, PasswordRequired]
  {
  }

  /** The user-name field has no format rule: any non-blank text, user name or email, is accepted. */
  lemma AnyIdentifierAccepted(identifier: string, password: string)
    requires !IsBlank(identifier) && !IsBlank(password)
    ensures IsValidLogin(LoginViewModel(Some(identifier), Some(password)))
  {
  }

  /** A valid login sub-form carries an identifier that stays non-empty once normalised. */
  lemma ValidLoginIdentifierNonEmpty(login: LoginViewModel)
    requires IsValidLogin(login)
    ensures login.userName.Some? && |Normalize(login.userName.value)| > 0
  {
  }
}
