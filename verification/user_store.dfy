/**
  The user service over the users collection (Data/UserService.cs).

  The collection is a sequence in insertion order; `FirstOrDefaultAsync` is the
  first match in that order and `AnyAsync` is the existence of a match. Every
  comparison is exact string equality: the store folds no case.
 */
module UserStore {
  import opened Wrappers
  import opened Text
  import opened Users

  /** The two indexed fields of a user. */
  datatype Field = EmailField | UserNameField

  function KeyOf(u: User, f: Field): string {
    match f
    case EmailField => u.email
    case UserNameField => u.userName
  }

  /** Position of the first user from `from` on whose field `f` equals `key`. */
  function FirstIndexFrom(users: seq<User>, f: Field, key: string, from: nat): (r: Option<nat>)
    requires from <= |users|
    ensures r.Some? ==> from <= r.value < |users| && KeyOf(users[r.value], f) == key
    ensures r.Some? ==> forall j :: from <= j < r.value ==> KeyOf(users[j], f) != key
    ensures r.None? ==> forall j :: from <= j < |users| ==> KeyOf(users[j], f) != key
    decreases |users| - from
  {
    if from == |users| then None
    else if KeyOf(users[from], f) == key then Some(from)
    else FirstIndexFrom(users, f, key, from + 1)
  }

  /** `Find(u => u.<f> == key).FirstOrDefaultAsync()`. */
  function FindFirst(users: seq<User>, f: Field, key: string): (r: Option<User>)
    ensures r.Some? <==> exists j :: 0 <= j < |users| && KeyOf(users[j], f) == key
    ensures r.Some? ==> exists i :: 0 <= i < |users| && users[i] == r.value && KeyOf(users[i], f) == key
                                    && forall j :: 0 <= j < i ==> KeyOf(users[j], f) != key
  {
    match FirstIndexFrom(users, f, key, 0)
    case Some(i) => Some(users[i])
    case None => None
  }

  /** `GetByEmailAsync`: a stored user whose email is exactly `email`, or null. */
  function GetByEmail(users: seq<User>, email: string): (r: Option<User>)
    ensures r.Some? ==> r.value in users && r.value.email == email
    ensures r.None? <==> forall u :: u in users ==> u.email != email
  {
    FindFirst(users, EmailField, email)
  }

  /** `GetByUserNameAsync`: a stored user whose user name is exactly `userName`, or null. */
  function GetByUserName(users: seq<User>, userName: string): (r: Option<User>)
    ensures r.Some? ==> r.value in users && r.value.userName == userName
    ensures r.None? <==> forall u :: u in users ==> u.userName != userName
  {
    FindFirst(users, UserNameField, userName)
  }

  /**
    `GetByIdentifierAsync`: lowercases the identifier (without trimming it),
    then tries the email field and falls back to the user-name field.
   */
  function GetByIdentifier(users: seq<User>, identifier: string): (r: Option<User>)
    ensures r.Some? ==> r.value in users && (r.value.email == ToLower(identifier) || r.value.userName == ToLower(identifier))
    ensures (exists u :: u in users && u.email == ToLower(identifier)) ==> r.Some? && r.value.email == ToLower(identifier)
    ensures (forall u :: u in users ==> u.email != ToLower(identifier)) ==> r == GetByUserName(users, ToLower(identifier))
  {
    var key := ToLower(identifier);
    match GetByEmail(users, key)
    case Some(u) => Some(u)
    case None => GetByUserName(users, key)
  }

  /** `ExistsByEmailOrUserNameAsync`: `Find(Or(Eq(Email, email), Eq(UserName, userName))).AnyAsync()`. */
  function ExistsByEmailOrUserName(users: seq<User>, email: string, userName: string): (b: bool)
    ensures b <==> exists i :: 0 <= i < |users| && (users[i].email == email || users[i].userName == userName)
  {
    if users == [] then false
    else
      || users[0].email == email
      || users[0].userName == userName
      || ExistsByEmailOrUserName(users[1..], email, userName)
  }

  /** `CreateUserAsync`: `InsertOneAsync` adds the user after every stored one. */
  function CreateUser(users: seq<User>, user: User): (r: seq<User>)
    ensures |r| == |users| + 1 && r[|users|] == user
    ensures forall i :: 0 <= i < |users| ==> r[i] == users[i]
    ensures ExistsByEmailOrUserName(r, user.email, user.userName)
  {
    users + [user]
  }

  /** No two stored users share a user name, and no two share an email. */
  ghost predicate UniqueKeys(users: seq<User>) {
    forall i, j :: 0 <= i < j < |users| ==> users[i].userName != users[j].userName && users[i].email != users[j].email
  }

  /** Every stored user name and email is in normalised form. */
  ghost predicate AllNormalized(users: seq<User>) {
    forall u :: u in users ==> IsNormalized(u.userName) && IsNormalized(u.email)
  }

  /** The identifier lookup finds a user exactly when the existence check on the lowered identifier holds. */
  lemma LookupAgreesWithExists(users: seq<User>, identifier: string)
    ensures GetByIdentifier(users, identifier).Some? <==> ExistsByEmailOrUserName(users, ToLower(identifier), ToLower(identifier))
  {
  }

  /** Lowering the identifier first changes nothing: the lookup lowers it again. */
  lemma GetByIdentifierLowerInvariant(users: seq<User>, identifier: string)
    ensures GetByIdentifier(users, ToLower(identifier)) == GetByIdentifier(users, identifier)
  {
    ToLowerIdempotent(identifier);
  }

  /**
    When one user's email is another's user name, the identifier lookup on
    that string returns the email owner.
   */
  lemma EmailOwnerPreferred(users: seq<User>, i: nat, j: nat)
    requires UniqueKeys(users) && AllNormalized(users)
    requires i < |users| && j < |users| && users[i].email == users[j].userName
    ensures GetByIdentifier(users, users[j].userName) == Some(users[i])
  {
  }

  /** The lookup does not trim: an identifier with leading white space matches no normalised entry. */
  lemma GetByIdentifierDoesNotTrim(users: seq<User>, identifier: string)
    requires AllNormalized(users)
    requires |identifier| > 0 && IsWhiteSpace(identifier[0])
    ensures GetByIdentifier(users, identifier) == None
  {
  }

  /** Under unique keys, a lookup by email finds the one user holding that email. */
  lemma UniqueEmailLookup(users: seq<User>, k: nat)
    requires UniqueKeys(users) && k < |users|
    ensures GetByEmail(users, users[k].email) == Some(users[k])
  {
  }

  /** Under unique keys, a lookup by user name finds the one user holding that name. */
  lemma UniqueUserNameLookup(users: seq<User>, k: nat)
    requires UniqueKeys(users) && k < |users|
    ensures GetByUserName(users, users[k].userName) == Some(users[k])
  {
  }

  /**
    Inserting a user never changes which user an existing match resolves to;
    a key nobody held before now resolves to the new user if it holds it.
   */
  lemma CreateUserKeepsLookups(users: seq<User>, user: User, f: Field, key: string)
    ensures FindFirst(users, f, key).Some? ==> FindFirst(CreateUser(users, user), f, key) == FindFirst(users, f, key)
    ensures FindFirst(users, f, key).None? ==>
              FindFirst(CreateUser(users, user), f, key) == (if KeyOf(user, f) == key then Some(user) else None)
  {
  }
}
