/** The two document shapes of models/request.js and models/user.js, their enums and
    defaults, and the constraints the schemas declare. */
module Schema {
  import opened Wrappers
  import Validate

  /** Document ids. The store hands them out; only equality matters. */
  type UserId = nat
  type RequestId = nat

  // Role names (utils/userRoles.js is not part of this model; only their distinctness matters).
  const ADMIN := "Admin"
  const USER := "User"
  const SELLER := "Seller"
  const MAINTENANCE_CENTER := "MaintenanceCenter"

  // The request status enum of models/request.js.
  const PENDING := "Pending"
  const ACCEPTABLE := "Acceptable"
  const UNACCEPTABLE := "Unacceptable"

  /** A request document: its owner, the role asked for, and where it stands. */
  datatype Request = Request(userId: UserId, requestContent: string, status: string)

  /** A user document. `password` holds whatever the store was given (a hash, on register). */
  datatype User = User(firstName: string, lastName: string, email: string, password: string,
                       role: string, token: Option<string>)

  /** `requestContent`'s enum: the roles a request may ask for. */
  predicate IsPromotableRole(s: string) {
    s == SELLER || s == MAINTENANCE_CENTER
  }

  /** `status`'s enum. */
  predicate IsRequestStatus(s: string) {
    s == PENDING || s == ACCEPTABLE || s == UNACCEPTABLE
  }

  /** `role`'s enum in models/user.js: only the two base roles are declared. */
  predicate IsDeclaredRole(s: string) {
    s == ADMIN || s == USER
  }

  /** What the request schema accepts when it validates a document. */
  predicate RequestConforms(r: Request) {
    IsPromotableRole(r.requestContent) && IsRequestStatus(r.status)
  }

  /** A request built from owner and content only: `status` takes its default. */
  function NewRequest(owner: UserId, content: string): (r: Request)
    ensures r.userId == owner && r.requestContent == content && r.status == PENDING
    ensures RequestConforms(r) <==> IsPromotableRole(content)
  {
    Request(owner, content, PENDING)
  }

  /** A promotable role is never a base role, so no request can ask for ADMIN or USER. */
  lemma PromotableIsNotBase(s: string)
    requires IsPromotableRole(s)
    ensures !IsDeclaredRole(s)
  {
  }

  /** A user built without role or token: `role` takes its default, `token` stays unset. */
  function NewUser(firstName: string, lastName: string, email: string, password: string): (u: User)
    ensures u.role == USER && IsDeclaredRole(u.role) && u.token.None?
    ensures u.firstName == firstName && u.lastName == lastName && u.email == email && u.password == password
  {
    User(firstName, lastName, email, password, USER, None)
  }

  /** The unique index on `email`: no two stored users share one. */
  ghost predicate EmailsUnique(users: map<UserId, User>) {
    forall a, b :: a in users && b in users && users[a].email == users[b].email ==> a == b
  }

  /** The field validators of the user schema, with `required` reading an empty string as missing. */
  predicate NameFieldsConform(firstName: string, lastName: string, email: string) {
    firstName != "" && lastName != "" && email != "" &&
    Validate.IsName(firstName).Pass? && Validate.IsName(lastName).Pass? && Validate.IsEmail(email).Pass?
  }

  /** The corrected name check is stricter than the schema's own `isName` validator: names
      and an email that pass the corrected checks (the first three steps of the corrected
      registration pipeline) also pass the validators the schema runs on the stored fields. */
  lemma CorrectedNamesConform(firstName: string, lastName: string, email: string)
    requires Validate.IsNameFixed(firstName).Pass? && Validate.IsNameFixed(lastName).Pass?
    requires Validate.IsEmail(email).Pass?
    ensures NameFieldsConform(firstName, lastName, email)
  {
    Validate.IsNameFixedAgrees(firstName);
    Validate.IsNameFixedAgrees(lastName);
  }
}
