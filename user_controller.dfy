/** The six account handlers of controllers/user.js over the `users` collection. bcrypt and
    jsonwebtoken come in as a `Crypto` value; the `$regex` match of `getUsers` (with its
    case-insensitive option) as a predicate `matches(pattern, text)`. The routes without an
    `:id` parameter call `getUserById`, `updateUserById` and `deleteUserById` with none,
    which `findById` answers with no user; the routes with one are admin only. */
module UserController {
  import opened Wrappers
  import opened Errors
  import opened Schema
  import opened Store
  import opened Auth
  import Validate
  import JsNumber
  import Strings

  const USER_NOT_FOUND := Create("user is not found", 404, FAIL)

  // ---------------------------------------------------------------- register

  const REGISTER_FIELDS_REQUIRED := Create("firstName, lastName, email and password are required", 400, FAIL)
  const USER_EXISTS := Create("user already exists", 400, FAIL)

  /** The validation pipeline of `register` (lines 21-29): first name, last name, email,
      password, with the validators as written; the first error thrown is passed on unchanged. */
  function RegistrationCheck(firstName: string, lastName: string, email: string, password: string): (r: Outcome)
    ensures r.Pass? <==>
      Validate.IsName(firstName).Pass? && Validate.IsName(lastName).Pass? &&
      Validate.IsEmail(email).Pass? && Validate.IsStrongPassword(password).Pass?
    ensures Validate.IsName(firstName).Fail? ==> r == Validate.IsName(firstName)
    ensures Validate.IsName(firstName).Pass? && Validate.IsName(lastName).Fail? ==> r == Validate.IsName(lastName)
    ensures Validate.IsName(firstName).Pass? && Validate.IsName(lastName).Pass? && Validate.IsEmail(email).Fail? ==>
      r == Validate.IsEmail(email)
    ensures Validate.IsName(firstName).Pass? && Validate.IsName(lastName).Pass? && Validate.IsEmail(email).Pass? ==>
      r == Validate.IsStrongPassword(password)
    ensures r.Fail? ==> r.error.statusCode == Some(400) && r.error.statusText == Some(FAIL)
  {
    if Validate.IsName(firstName).Fail? then Validate.IsName(firstName)
    else if Validate.IsName(lastName).Fail? then Validate.IsName(lastName)
    else if Validate.IsEmail(email).Fail? then Validate.IsEmail(email)
    else Validate.IsStrongPassword(password)
  }

  /** What the pipeline accepts, spelled out: names of 3 to 20 characters starting with a
      capital (any characters after it), an address of the form of the email expression,
      and a password with all four character classes, at least 8 characters, and not,
      once trimmed, a hexadecimal literal worth more than 20. */
  lemma RegistrationCheckAccepts(firstName: string, lastName: string, email: string, password: string)
    ensures RegistrationCheck(firstName, lastName, email, password).Pass? <==>
      Validate.StartsWithCapital(firstName) && Validate.NameLengthOk(firstName) &&
      Validate.StartsWithCapital(lastName) && Validate.NameLengthOk(lastName) &&
      Validate.EmailPattern(email) &&
      Validate.HasNonWordChar(password) && Strings.HasLower(password) && Strings.HasUpper(password) &&
      Strings.HasDigit(password) && |password| >= 8 &&
      !(JsNumber.IsHexLiteral(JsNumber.Trim(password)) && JsNumber.ValueIn(JsNumber.Trim(password)[2..], 16) > 20)
  {
    Validate.IsNameVerdict(firstName);
    Validate.IsNameVerdict(lastName);
    if Validate.PasswordClasses(password).Pass? {
      Validate.IsStrongPasswordLengthVerdict(password);
    }
  }

  /** The same pipeline with the corrected name and password checks. */
  function RegistrationCheckFixed(firstName: string, lastName: string, email: string, password: string): (r: Outcome)
    ensures r.Pass? <==>
      Validate.IsNameFixed(firstName).Pass? && Validate.IsNameFixed(lastName).Pass? &&
      Validate.IsEmail(email).Pass? && Validate.IsStrongPasswordFixed(password).Pass?
    ensures Validate.IsNameFixed(firstName).Fail? ==> r == Validate.IsNameFixed(firstName)
    ensures Validate.IsNameFixed(firstName).Pass? && Validate.IsNameFixed(lastName).Fail? ==>
      r == Validate.IsNameFixed(lastName)
    ensures Validate.IsNameFixed(firstName).Pass? && Validate.IsNameFixed(lastName).Pass? && Validate.IsEmail(email).Fail? ==>
      r == Validate.IsEmail(email)
    ensures Validate.IsNameFixed(firstName).Pass? && Validate.IsNameFixed(lastName).Pass? && Validate.IsEmail(email).Pass? ==>
      r == Validate.IsStrongPasswordFixed(password)
    ensures r.Fail? ==> r.error.statusCode == Some(400) && r.error.statusText == Some(FAIL)
  {
    if Validate.IsNameFixed(firstName).Fail? then Validate.IsNameFixed(firstName)
    else if Validate.IsNameFixed(lastName).Fail? then Validate.IsNameFixed(lastName)
    else if Validate.IsEmail(email).Fail? then Validate.IsEmail(email)
    else Validate.IsStrongPasswordFixed(password)
  }

  /** The corrected pipeline accepts exactly capitalised all-letter names of 3 to 20, an
      address of the form of the email expression, and a password with all four character
      classes and 8 to 20 characters. */
  lemma RegistrationCheckFixedAccepts(firstName: string, lastName: string, email: string, password: string)
    ensures RegistrationCheckFixed(firstName, lastName, email, password).Pass? <==>
      Validate.StartsWithCapital(firstName) && Strings.AllLetters(firstName) && Validate.NameLengthOk(firstName) &&
      Validate.StartsWithCapital(lastName) && Strings.AllLetters(lastName) && Validate.NameLengthOk(lastName) &&
      Validate.EmailPattern(email) &&
      Validate.HasNonWordChar(password) && Strings.HasLower(password) && Strings.HasUpper(password) &&
      Strings.HasDigit(password) && 8 <= |password| <= 20
  {
    Validate.IsNameFixedAccepts(firstName);
    Validate.IsNameFixedAccepts(lastName);
    Validate.IsStrongPasswordFixedAccepts(password);
  }

  /** With all-letter names and a password of at most 20 characters that is no hexadecimal
      literal above 20, the pipeline as written and the corrected one give the same answer. */
  lemma RegistrationChecksAgree(firstName: string, lastName: string, email: string, password: string)
    requires Strings.AllLetters(firstName) && Strings.AllLetters(lastName) && |password| <= 20
    requires !(JsNumber.IsHexLiteral(JsNumber.Trim(password)) && JsNumber.ValueIn(JsNumber.Trim(password)[2..], 16) > 20)
    ensures RegistrationCheckFixed(firstName, lastName, email, password) == RegistrationCheck(firstName, lastName, email, password)
  {
    Validate.IsNameFixedAgrees(firstName);
    Validate.IsNameFixedAgrees(lastName);
    Validate.IsStrongPasswordFixedAgrees(password);
  }

  /** `register`: missing fields, then the pipeline, then an existing email, each refused
      without a change; otherwise one user is added under a fresh id, holding the hash of
      the password and the default role. */
  method Register(db: Db, crypto: Crypto, firstName: Option<string>, lastName: Option<string>,
                  email: Option<string>, password: Option<string>) returns (r: Reply<User>)
    requires db.Valid()
    modifies db
    ensures db.Valid()
    ensures !(IsTruthyText(firstName) && IsTruthyText(lastName) && IsTruthyText(email) && IsTruthyText(password)) ==>
      r == Err(REGISTER_FIELDS_REQUIRED) && unchanged(db)
    ensures IsTruthyText(firstName) && IsTruthyText(lastName) && IsTruthyText(email) && IsTruthyText(password) ==>
      var check := RegistrationCheck(firstName.value, lastName.value, email.value, password.value);
      (check.Fail? ==> r == Err(check.error) && unchanged(db)) &&
      (check.Pass? && FindByEmail(old(db.users), email.value).Some? ==> r == Err(USER_EXISTS) && unchanged(db)) &&
      (check.Pass? && FindByEmail(old(db.users), email.value).None? ==>
        var u := NewUser(firstName.value, lastName.value, email.value, crypto.hash(password.value));
        r == Ok(201, "You registered successfully", u) &&
        old(db.nextUserId) !in old(db.users) &&
        db.users == old(db.users)[old(db.nextUserId) := u] &&
        db.requests == old(db.requests) && db.nextRequestId == old(db.nextRequestId))
  {
    if !(IsTruthyText(firstName) && IsTruthyText(lastName) && IsTruthyText(email) && IsTruthyText(password)) {
      return Err(REGISTER_FIELDS_REQUIRED);
    }
    var check := RegistrationCheck(firstName.value, lastName.value, email.value, password.value);
    if check.Fail? {
      return Err(check.error);
    }
    if FindByEmail(db.users, email.value).Some? {
      return Err(USER_EXISTS);
    }
    var u := NewUser(firstName.value, lastName.value, email.value, crypto.hash(password.value));
    var id := db.nextUserId;
    InsertKeepsEmailsUnique(db.users, id, u);
    db.users := db.users[id := u];
    db.nextUserId := id + 1;
    r := Ok(201, "You registered successfully", u);
  }

  // ---------------------------------------------------------------- login

  const LOGIN_FIELDS_REQUIRED := Create("email and password are required", 400, FAIL)
  const UNKNOWN_EMAIL := Create("user not found", 404, FAIL)
  const WRONG_PASSWORD := Create("password is wrong", 400, ERROR)

  /** The claims `login` signs for a stored user. */
  function ClaimsOf(id: UserId, u: User): (cl: Claims)
    ensures cl.id == id && cl.email == u.email && cl.role == u.role
  {
    Claims(id, u.email, u.role)
  }

  /** `login`: missing fields (400), unknown email (404), wrong password (400), each without
      a change; otherwise the token signing exactly `{email, id, role}` is stored on that
      user and returned, and nothing else changes. */
  method Login(db: Db, crypto: Crypto, email: Option<string>, password: Option<string>) returns (r: Reply<string>)
    requires db.Valid()
    modifies db
    ensures db.Valid()
    ensures !(IsTruthyText(email) && IsTruthyText(password)) ==> r == Err(LOGIN_FIELDS_REQUIRED) && unchanged(db)
    ensures IsTruthyText(email) && IsTruthyText(password) ==>
      match FindByEmail(old(db.users), email.value)
      case None => r == Err(UNKNOWN_EMAIL) && unchanged(db)
      case Some(id) =>
        var u := old(db.users)[id];
        (!crypto.compare(password.value, u.password) ==> r == Err(WRONG_PASSWORD) && unchanged(db)) &&
        (crypto.compare(password.value, u.password) ==>
          var token := crypto.sign(ClaimsOf(id, u));
          r == Ok(200, "You login successfully", token) &&
          db.users == old(db.users)[id := u.(token := Some(token))] &&
          db.requests == old(db.requests) &&
          db.nextUserId == old(db.nextUserId) && db.nextRequestId == old(db.nextRequestId))
  {
    if !(IsTruthyText(email) && IsTruthyText(password)) {
      return Err(LOGIN_FIELDS_REQUIRED);
    }
    var found := FindByEmail(db.users, email.value);
    if found.None? {
      return Err(UNKNOWN_EMAIL);
    }
    var id := found.value;
    var u := db.users[id];
    if !crypto.compare(password.value, u.password) {
      return Err(WRONG_PASSWORD);
    }
    var token := crypto.sign(ClaimsOf(id, u));
    TokenKeepsEmails(db.users, id, token);
    db.users := db.users[id := u.(token := Some(token))];
    r := Ok(200, "You login successfully", token);
  }

  lemma TokenKeepsEmails(users: map<UserId, User>, id: UserId, token: string)
    requires id in users && EmailsUnique(users)
    ensures EmailsUnique(users[id := users[id].(token := Some(token))])
  {
    var after := users[id := users[id].(token := Some(token))];
    forall a, b | a in after && b in after && after[a].email == after[b].email ensures a == b {
      assert after[a].email == users[a].email && after[b].email == users[b].email;
    }
  }

  // ---------------------------------------------------------------- getUsers

  /** A user as the listing shows it: every field but the password. */
  datatype PublicUser = PublicUser(firstName: string, lastName: string, email: string, role: string, token: Option<string>)

  function Public(u: User): (p: PublicUser)
    ensures p.firstName == u.firstName && p.lastName == u.lastName && p.email == u.email
    ensures p.role == u.role && p.token == u.token
  {
    PublicUser(u.firstName, u.lastName, u.email, u.role, u.token)
  }

  /** The query fields `getUsers` looks at. */
  datatype UserQuery = UserQuery(firstName: Option<string>, lastName: Option<string>, email: Option<string>, search: Option<string>)

  /** The five-way precedence of `getUsers`: whether `u` is listed for `q`. */
  predicate Listed(matches: (string, string) -> bool, q: UserQuery, u: User) {
    if IsTruthyText(q.firstName) then matches(q.firstName.value, u.firstName)
    else if IsTruthyText(q.lastName) then matches(q.lastName.value, u.lastName)
    else if IsTruthyText(q.email) then matches(q.email.value, u.email)
    else if IsTruthyText(q.search) then
      matches(q.search.value, u.firstName) || matches(q.search.value, u.lastName) || matches(q.search.value, u.email)
    else true
  }

  /** `find(filter, { password: false })`. */
  function ListUsers(users: map<UserId, User>, matches: (string, string) -> bool, q: UserQuery): (r: map<UserId, PublicUser>)
    ensures forall id :: id in r <==> id in users && Listed(matches, q, users[id])
    ensures forall id :: id in r ==> r[id] == Public(users[id])
  {
    map id | id in users && Listed(matches, q, users[id]) :: Public(users[id])
  }

  /** A truthy `firstName` decides alone: the other query fields are then ignored. */
  lemma FirstNameQueryWins(users: map<UserId, User>, matches: (string, string) -> bool, q: UserQuery)
    requires IsTruthyText(q.firstName)
    ensures ListUsers(users, matches, q) == ListUsers(users, matches, UserQuery(q.firstName, None, None, None))
  {
  }

  /** `search` is consulted only when the three field queries are all falsy, and then
      matches any of the three fields. */
  lemma SearchQueryIsLast(users: map<UserId, User>, matches: (string, string) -> bool, q: UserQuery)
    requires !IsTruthyText(q.firstName) && !IsTruthyText(q.lastName) && !IsTruthyText(q.email)
    ensures forall id :: id in ListUsers(users, matches, q) <==>
      (id in users &&
       (!IsTruthyText(q.search) ||
        matches(q.search.value, users[id].firstName) || matches(q.search.value, users[id].lastName) ||
        matches(q.search.value, users[id].email)))
  {
  }

  /** Passwords never reach the listing: two collections that differ only in passwords are
      listed identically. */
  lemma ListingIgnoresPasswords(users: map<UserId, User>, other: map<UserId, User>,
                                matches: (string, string) -> bool, q: UserQuery)
    requires users.Keys == other.Keys
    requires forall id :: id in users ==> other[id] == users[id].(password := other[id].password)
    ensures ListUsers(users, matches, q) == ListUsers(other, matches, q)
  {
    var a := ListUsers(users, matches, q);
    var b := ListUsers(other, matches, q);
    forall id | id in users ensures Listed(matches, q, users[id]) == Listed(matches, q, other[id]) && Public(users[id]) == Public(other[id]) {
      assert other[id].firstName == users[id].firstName && other[id].lastName == users[id].lastName;
      assert other[id].email == users[id].email;
    }
    assert a.Keys == b.Keys;
  }

  /** `getUsers` (admin only). */
  function GetUsers(db: Db, caller: Claims, matches: (string, string) -> bool, q: UserQuery): (r: Reply<map<UserId, PublicUser>>)
    reads db
    requires caller.role == ADMIN
    ensures r.Ok? && r.code == 200 && r.message == "users are here"
    ensures forall id :: id in r.data <==> id in db.users && Listed(matches, q, db.users[id])
    ensures forall id :: id in r.data ==> r.data[id] == Public(db.users[id])
  {
    Ok(200, "users are here", ListUsers(db.users, matches, q))
  }

  // ---------------------------------------------------------------- by id

  /** `getUserById`: 404 without an id or for an absent one; the document comes back whole. */
  function GetUserById(db: Db, caller: Claims, id: Option<UserId>): (r: Reply<User>)
    reads db
    requires id.Some? ==> caller.role == ADMIN
    ensures r.Ok? <==> id.Some? && id.value in db.users
    ensures r.Ok? ==> r == Ok(200, "This is the user", db.users[id.value])
    ensures r.Err? ==> r.error == USER_NOT_FOUND
  {
    if id.None? || id.value !in db.users then Err(USER_NOT_FOUND)
    else Ok(200, "This is the user", db.users[id.value])
  }

  /** The fields of an update body `updateUserById` reads. */
  datatype NamePatch = NamePatch(firstName: Option<string>, lastName: Option<string>)

  /** `$set: { firstName, lastName }`, where a field the body leaves out is undefined and
      dropped from the update. */
  function Renamed(u: User, patch: NamePatch): (v: User)
    ensures v.firstName == (if patch.firstName.Some? then patch.firstName.value else u.firstName)
    ensures v.lastName == (if patch.lastName.Some? then patch.lastName.value else u.lastName)
    ensures v.email == u.email && v.password == u.password && v.role == u.role && v.token == u.token
  {
    var first := if patch.firstName.Some? then patch.firstName.value else u.firstName;
    var last := if patch.lastName.Some? then patch.lastName.value else u.lastName;
    u.(firstName := first, lastName := last)
  }

  const BODY_EMPTY := Create("Body is empty", 400, ERROR)
  const NAMES_ONLY := Create("You can edit firstName or lastName only", 400, FAIL)

  /** `updateUserById`: 404, then a missing body, then neither name truthy, each without a
      change; otherwise only that user's names change. */
  method UpdateUserById(db: Db, caller: Claims, id: Option<UserId>, body: Option<NamePatch>) returns (r: Reply<()>)
    requires id.Some? ==> caller.role == ADMIN
    requires db.Valid()
    modifies db
    ensures db.Valid()
    ensures (id.None? || id.value !in old(db.users)) ==> r == Err(USER_NOT_FOUND) && unchanged(db)
    ensures id.Some? && id.value in old(db.users) && body.None? ==> r == Err(BODY_EMPTY) && unchanged(db)
    ensures (id.Some? && id.value in old(db.users) && body.Some? &&
             !IsTruthyText(body.value.firstName) && !IsTruthyText(body.value.lastName)) ==>
      r == Err(NAMES_ONLY) && unchanged(db)
    ensures (id.Some? && id.value in old(db.users) && body.Some? &&
             (IsTruthyText(body.value.firstName) || IsTruthyText(body.value.lastName))) ==>
      r == Ok(200, "updated user successfully", ()) &&
      db.users == old(db.users)[id.value := Renamed(old(db.users)[id.value], body.value)] &&
      db.requests == old(db.requests) &&
      db.nextUserId == old(db.nextUserId) && db.nextRequestId == old(db.nextRequestId)
  {
    if id.None? || id.value !in db.users {
      return Err(USER_NOT_FOUND);
    }
    if body.None? {
      return Err(BODY_EMPTY);
    }
    if !IsTruthyText(body.value.firstName) && !IsTruthyText(body.value.lastName) {
      return Err(NAMES_ONLY);
    }
    RenameKeepsEmails(db.users, id.value, body.value);
    db.users := db.users[id.value := Renamed(db.users[id.value], body.value)];
    r := Ok(200, "updated user successfully", ());
  }

  lemma RenameKeepsEmails(users: map<UserId, User>, id: UserId, patch: NamePatch)
    requires id in users && EmailsUnique(users)
    ensures EmailsUnique(users[id := Renamed(users[id], patch)])
  {
    var after := users[id := Renamed(users[id], patch)];
    forall a, b | a in after && b in after && after[a].email == after[b].email ensures a == b {
      assert after[a].email == users[a].email && after[b].email == users[b].email;
    }
  }

  /** `deleteUserById`: 404 without an id or for an absent one; otherwise only that user
      goes, and the requests it owns stay. */
  method DeleteUserById(db: Db, caller: Claims, id: Option<UserId>) returns (r: Reply<()>)
    requires id.Some? ==> caller.role == ADMIN
    requires db.Valid()
    modifies db
    ensures db.Valid()
    ensures (id.None? || id.value !in old(db.users)) ==> r == Err(USER_NOT_FOUND) && unchanged(db)
    ensures id.Some? && id.value in old(db.users) ==>
      r == Ok(200, "deleted user successfully", ()) &&
      db.users == old(db.users) - {id.value} && db.requests == old(db.requests) &&
      db.nextUserId == old(db.nextUserId) && db.nextRequestId == old(db.nextRequestId)
  {
    if id.None? || id.value !in db.users {
      return Err(USER_NOT_FOUND);
    }
    db.users := db.users - {id.value};
    r := Ok(200, "deleted user successfully", ());
  }
}
