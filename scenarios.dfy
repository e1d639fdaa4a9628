/** The promotion workflow end to end, as a client drives it: register, log in, present
    the token to `auth`, ask for the Seller role, have an administrator accept, and look
    the user up again. */
module Scenarios {
  import opened Wrappers
  import opened Errors
  import opened Schema
  import opened Store
  import opened Auth
  import RequestController
  import UserController
  import Validate

  method Promotion(db: Db, crypto: Crypto, admin: Claims,
                   firstName: string, lastName: string, email: string, password: string)
    returns (after: Reply<User>)
    requires db.Valid()
    requires HashMatches(crypto) && TokensRoundTrip(crypto)
    requires admin.role == ADMIN
    requires UserController.RegistrationCheck(firstName, lastName, email, password).Pass?
    requires FindByEmail(db.users, email).None?
    modifies db
    ensures db.Valid()
    ensures after.Ok? && after.data.role == SELLER
  {
    var caller := SignUp(db, crypto, firstName, lastName, email, password);
    after := Promote(db, admin, caller);
  }

  /** Register, log in and present the token: `auth` then admits the new user as a User. */
  method SignUp(db: Db, crypto: Crypto, firstName: string, lastName: string, email: string, password: string)
    returns (caller: Claims)
    requires db.Valid()
    requires HashMatches(crypto) && TokensRoundTrip(crypto)
    requires UserController.RegistrationCheck(firstName, lastName, email, password).Pass?
    requires FindByEmail(db.users, email).None?
    modifies db
    ensures db.Valid()
    ensures caller.role == USER && caller.id in db.users && db.users[caller.id].email == email
  {
    var userId := Enrol(db, crypto, firstName, lastName, email, password);
    assert FindByEmail(db.users, email) == Some(userId);
    var login := UserController.Login(db, crypto, Some(email), Some(password));
    var token := login.data;
    IssuedTokenAuthenticates(crypto, UserController.ClaimsOf(userId, db.users[userId]));
    var auth := Authenticate(Some(PREFIX + token), crypto.verify);
    caller := auth.user;
  }

  /** Registering details the pipeline accepts, with an email no one uses, stores a new User. */
  method Enrol(db: Db, crypto: Crypto, firstName: string, lastName: string, email: string, password: string)
    returns (userId: UserId)
    requires db.Valid()
    requires UserController.RegistrationCheck(firstName, lastName, email, password).Pass?
    requires FindByEmail(db.users, email).None?
    modifies db
    ensures db.Valid()
    ensures userId in db.users && db.users[userId] == NewUser(firstName, lastName, email, crypto.hash(password))
  {
    Validate.IsNameVerdict(firstName);
    Validate.IsNameVerdict(lastName);
    assert password != "" by {
      assert !Validate.LengthRuleAsWrittenFails(password);
    }
    assert email != "";
    userId := db.nextUserId;
    var registered := UserController.Register(db, crypto, Some(firstName), Some(lastName), Some(email), Some(password));
  }

  /** A User asks for the Seller role, an administrator accepts, and the user now reads as a Seller. */
  method Promote(db: Db, admin: Claims, caller: Claims) returns (after: Reply<User>)
    requires db.Valid()
    requires admin.role == ADMIN && caller.role == USER && caller.id in db.users
    modifies db
    ensures db.Valid()
    ensures after.Ok? && after.data.role == SELLER
  {
    var requestId := db.nextRequestId;
    var created := RequestController.CreateRequest(db, caller, Some(SELLER));
    assert requestId in db.requests && db.requests[requestId].userId == caller.id;
    ghost var before := RequestController.Collections(db.users, db.requests);
    var accepted := RequestController.UpdateStatusRequestById(db, admin, requestId, Some(ACCEPTABLE));
    assert RequestController.Collections(db.users, db.requests) == RequestController.StatusUpdate(before, requestId, ACCEPTABLE);
    RequestController.AcceptanceGrantsRole(before, requestId);
    after := UserController.GetUserById(db, admin, Some(caller.id));
  }
}
