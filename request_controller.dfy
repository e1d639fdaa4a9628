/** The nine handlers of controllers/request.js. Queries are functions of the store; the
    handlers that write are methods on it. The role guards of routes/request.js become
    preconditions on the caller's role. */
module RequestController {
  import opened Wrappers
  import opened Errors
  import opened Schema
  import opened Store
  import opened Auth

  const REQUEST_NOT_FOUND := Create("request is not found", 404, FAIL)

  /** The 401 an owner-scoped handler raises on someone else's request. */
  function NotYours(action: string): AppError {
    Create("You can not " + action + " this request because this request is not yours", 401, FAIL)
  }

  /** The first two steps of every owner-scoped handler: the request must exist, then
      belong to the caller. None when both hold. */
  function CheckOwned(requests: map<RequestId, Request>, caller: UserId, id: RequestId, action: string): (e: Option<AppError>)
    ensures e.None? <==> id in requests && requests[id].userId == caller
    ensures id !in requests ==> e == Some(REQUEST_NOT_FOUND)
    ensures id in requests && requests[id].userId != caller ==> e == Some(NotYours(action))
  {
    if id !in requests then Some(REQUEST_NOT_FOUND)
    else if requests[id].userId != caller then Some(NotYours(action))
    else None
  }

  /** The query precedence of both list handlers: a truthy `status`, else a truthy
      `requestContent`, else no filter. */
  function ListFilter(status: Option<string>, content: Option<string>): RequestFilter {
    if IsTruthyText(status) then ByStatus(status.value)
    else if IsTruthyText(content) then ByContent(content.value)
    else AnyRequest
  }

  // ---------------------------------------------------------------- queries

  /** `getRequests` (admin only). */
  function GetRequests(db: Db, caller: Claims, status: Option<string>, content: Option<string>): (r: Reply<map<RequestId, Request>>)
    reads db
    requires caller.role == ADMIN
    ensures r.Ok? && r.code == 200 && r.message == "requests are here"
    ensures forall id :: id in r.data ==> id in db.requests && r.data[id] == db.requests[id]
    ensures IsTruthyText(status) ==>
      forall id :: id in r.data <==> id in db.requests && db.requests[id].status == status.value
    ensures !IsTruthyText(status) && IsTruthyText(content) ==>
      forall id :: id in r.data <==> id in db.requests && db.requests[id].requestContent == content.value
    ensures !IsTruthyText(status) && !IsTruthyText(content) ==> r.data == db.requests
  {
    Ok(200, "requests are here", FindRequests(db.requests, ListFilter(status, content), None))
  }

  /** `getMyRequests`: the same precedence, always within the caller's own requests. */
  function GetMyRequests(db: Db, caller: Claims, status: Option<string>, content: Option<string>): (r: Reply<map<RequestId, Request>>)
    reads db
    ensures r.Ok? && r.code == 200 && r.message == "your requests are here"
    ensures forall id :: id in r.data ==> id in db.requests && r.data[id] == db.requests[id] && r.data[id].userId == caller.id
    ensures IsTruthyText(status) ==>
      forall id :: id in r.data <==> id in db.requests && db.requests[id].userId == caller.id && db.requests[id].status == status.value
    ensures !IsTruthyText(status) && IsTruthyText(content) ==>
      forall id :: id in r.data <==> id in db.requests && db.requests[id].userId == caller.id && db.requests[id].requestContent == content.value
    ensures !IsTruthyText(status) && !IsTruthyText(content) ==>
      forall id :: id in r.data <==> id in db.requests && db.requests[id].userId == caller.id
  {
    Ok(200, "your requests are here", FindRequests(db.requests, ListFilter(status, content), Some(caller.id)))
  }

  /** What a user lists is exactly what an administrator would list with the same query,
      cut down to that user's requests. */
  lemma MyRequestsAreOwnedSlice(db: Db, admin: Claims, caller: Claims, status: Option<string>, content: Option<string>)
    requires admin.role == ADMIN
    ensures GetMyRequests(db, caller, status, content).data ==
      var all := GetRequests(db, admin, status, content).data;
      map id | id in all && all[id].userId == caller.id :: all[id]
  {
    OwnedListingIsSlice(db.requests, ListFilter(status, content), caller.id);
  }

  /** `getRequestById` (admin only). */
  function GetRequestById(db: Db, caller: Claims, id: RequestId): (r: Reply<Request>)
    reads db
    requires caller.role == ADMIN
    ensures id !in db.requests <==> r == Err(REQUEST_NOT_FOUND)
    ensures id in db.requests ==> r == Ok(200, "this is the request", db.requests[id])
  {
    if id !in db.requests then Err(REQUEST_NOT_FOUND)
    else Ok(200, "this is the request", db.requests[id])
  }

  /** `getMyRequestById`: 404 when absent, then 401 when owned by someone else. */
  function GetMyRequestById(db: Db, caller: Claims, id: RequestId): (r: Reply<Request>)
    reads db
    ensures id !in db.requests ==> r == Err(REQUEST_NOT_FOUND)
    ensures id in db.requests && db.requests[id].userId != caller.id ==> r == Err(NotYours("get"))
    ensures r.Ok? <==> id in db.requests && db.requests[id].userId == caller.id
    ensures r.Ok? ==> r.code == 200 && r.data == db.requests[id] && r.message == "this is your request"
  {
    match CheckOwned(db.requests, caller.id, id, "get")
    case Some(e) => Err(e)
    case None => Ok(200, "this is your request", db.requests[id])
  }

  // ---------------------------------------------------------------- the status cascade

  /** Both collections, as one value. */
  datatype Collections = Collections(users: map<UserId, User>, requests: map<RequestId, Request>)

  /** The three writes of `updateStatusRequestById`, in order: the status, then on
      "Acceptable" the owner's role, then the deletion of the owner's pending requests.
      `request` is the document as read before any write. */
  function StatusUpdate(c: Collections, id: RequestId, status: string): Collections
    requires id in c.requests
  {
    var request := c.requests[id];
    var written := c.requests[id := request.(status := status)];
    if status == ACCEPTABLE then
      Collections(SetRole(c.users, request.userId, request.requestContent), DeletePendingOf(written, request.userId))
    else
      Collections(c.users, written)
  }

  /** Whatever the status, the request keeps its id, owner and content and takes the new status. */
  lemma StatusIsWritten(c: Collections, id: RequestId, status: string)
    requires id in c.requests
    ensures id in StatusUpdate(c, id, status).requests
    ensures StatusUpdate(c, id, status).requests[id] == c.requests[id].(status := status)
  {
  }

  /** On acceptance the owner, if still present, takes the requested role, and nobody else changes. */
  lemma AcceptanceGrantsRole(c: Collections, id: RequestId)
    requires id in c.requests
    ensures var after := StatusUpdate(c, id, ACCEPTABLE).users;
      var owner := c.requests[id].userId;
      after.Keys == c.users.Keys &&
      (owner in c.users ==> after[owner] == c.users[owner].(role := c.requests[id].requestContent)) &&
      (forall u :: u in c.users && u != owner ==> after[u] == c.users[u])
  {
  }

  /** On acceptance no pending request of the owner remains, requests of other owners are
      untouched, and the owner's requests that were not pending stay. */
  lemma AcceptanceClearsPending(c: Collections, id: RequestId)
    requires id in c.requests
    ensures var after := StatusUpdate(c, id, ACCEPTABLE).requests;
      var owner := c.requests[id].userId;
      (forall k :: k in after && after[k].userId == owner ==> after[k].status != PENDING) &&
      (forall k :: k in c.requests && c.requests[k].userId != owner ==> k in after && after[k] == c.requests[k]) &&
      (forall k :: k in c.requests && k != id && c.requests[k].status != PENDING ==> k in after && after[k] == c.requests[k]) &&
      (forall k :: k in after ==> k in c.requests)
  {
  }

  /** Any other status changes that request's status and nothing else. */
  lemma OtherStatusWritesOnlyStatus(c: Collections, id: RequestId, status: string)
    requires id in c.requests && status != ACCEPTABLE
    ensures StatusUpdate(c, id, status).users == c.users
    ensures StatusUpdate(c, id, status).requests == c.requests[id := c.requests[id].(status := status)]
  {
  }

  /** The order of the writes matters: had the pending requests been deleted before the
      status write, a pending request being accepted would have been deleted with them,
      and the later `updateOne` would have matched nothing. */
  lemma DeletingFirstLosesAcceptedRequest(c: Collections, id: RequestId)
    requires id in c.requests && c.requests[id].status == PENDING
    ensures id !in DeletePendingOf(c.requests, c.requests[id].userId)
    ensures id in StatusUpdate(c, id, ACCEPTABLE).requests
  {
    StatusIsWritten(c, id, ACCEPTABLE);
  }

  /** The status cascade keeps the store's invariant. */
  lemma StatusUpdateKeepsValid(c: Collections, id: RequestId, status: string)
    requires id in c.requests && EmailsUnique(c.users)
    ensures EmailsUnique(StatusUpdate(c, id, status).users)
    ensures StatusUpdate(c, id, status).users.Keys == c.users.Keys
    ensures StatusUpdate(c, id, status).requests.Keys <= c.requests.Keys
  {
    if status == ACCEPTABLE {
      SetRoleKeepsEmails(c.users, c.requests[id].userId, c.requests[id].requestContent);
    }
  }

  // ---------------------------------------------------------------- handlers that write

  /** `createRequest` (USER only). A missing content is refused with 400. A content
      outside the schema's enum makes `insertOne` reject, which escapes the handler:
      nothing is stored and nothing is sent. Otherwise one pending request owned by the
      caller is added under a fresh id. */
  method CreateRequest(db: Db, caller: Claims, content: Option<string>) returns (r: Reply<()>)
    requires caller.role == USER
    requires db.Valid()
    modifies db
    ensures db.Valid()
    ensures !IsTruthyText(content) ==> r == Err(Create("requestContent is required", 400, ERROR)) && unchanged(db)
    ensures IsTruthyText(content) && !IsPromotableRole(content.value) ==> r.Escaped? && unchanged(db)
    ensures IsTruthyText(content) && IsPromotableRole(content.value) ==>
      r == Ok(201, "request sent successfully", ()) &&
      old(db.nextRequestId) !in old(db.requests) &&
      db.requests == old(db.requests)[old(db.nextRequestId) := NewRequest(caller.id, content.value)] &&
      db.users == old(db.users) && db.nextUserId == old(db.nextUserId)
  {
    if !IsTruthyText(content) {
      return Err(Create("requestContent is required", 400, ERROR));
    }
    var request := NewRequest(caller.id, content.value);
    if !RequestConforms(request) {
      return Escaped("Request validation failed");
    }
    var id := db.nextRequestId;
    db.requests := db.requests[id := request];
    db.nextRequestId := id + 1;
    r := Ok(201, "request sent successfully", ());
  }

  /** `updateStatusRequestById` (admin only): 404 when absent, then 400 for a missing
      status, neither changing anything; otherwise the cascade of `StatusUpdate`. */
  method UpdateStatusRequestById(db: Db, caller: Claims, id: RequestId, status: Option<string>) returns (r: Reply<()>)
    requires caller.role == ADMIN
    requires db.Valid()
    modifies db
    ensures db.Valid()
    ensures id !in old(db.requests) ==> r == Err(REQUEST_NOT_FOUND) && unchanged(db)
    ensures id in old(db.requests) && !IsTruthyText(status) ==>
      r == Err(Create("status is required", 400, ERROR)) && unchanged(db)
    ensures id in old(db.requests) && IsTruthyText(status) ==>
      r == Ok(200, "updated status successfully", ()) &&
      Collections(db.users, db.requests) == StatusUpdate(Collections(old(db.users), old(db.requests)), id, status.value) &&
      db.nextUserId == old(db.nextUserId) && db.nextRequestId == old(db.nextRequestId)
  {
    if id !in db.requests {
      return Err(REQUEST_NOT_FOUND);
    }
    var request := db.requests[id];
    if !IsTruthyText(status) {
      return Err(Create("status is required", 400, ERROR));
    }
    StatusUpdateKeepsValid(Collections(db.users, db.requests), id, status.value);
    db.requests := db.requests[id := request.(status := status.value)];
    if status.value == ACCEPTABLE {
      db.users := SetRole(db.users, request.userId, request.requestContent);
      db.requests := DeletePendingOf(db.requests, request.userId);
    }
    r := Ok(200, "updated status successfully", ());
  }

  /** `deleteRequestById` (admin only): 404 when absent, otherwise exactly that request goes. */
  method DeleteRequestById(db: Db, caller: Claims, id: RequestId) returns (r: Reply<()>)
    requires caller.role == ADMIN
    requires db.Valid()
    modifies db
    ensures db.Valid()
    ensures id !in old(db.requests) ==> r == Err(REQUEST_NOT_FOUND) && unchanged(db)
    ensures id in old(db.requests) ==>
      r == Ok(200, "deleted request successfully", ()) &&
      db.requests == old(db.requests) - {id} && db.users == old(db.users) &&
      db.nextUserId == old(db.nextUserId) && db.nextRequestId == old(db.nextRequestId)
  {
    if id !in db.requests {
      return Err(REQUEST_NOT_FOUND);
    }
    db.requests := db.requests - {id};
    r := Ok(200, "deleted request successfully", ());
  }

  /** `updateMyRequestById`: 404, then 401, then a missing content, all changing nothing;
      the missing-content error has neither code nor status word. Otherwise only the
      content of that request changes; the update runs no schema validator, so any
      content is stored. */
  method UpdateMyRequestById(db: Db, caller: Claims, id: RequestId, content: Option<string>) returns (r: Reply<()>)
    requires db.Valid()
    modifies db
    ensures db.Valid()
    ensures CheckOwned(old(db.requests), caller.id, id, "update").Some? ==>
      r == Err(CheckOwned(old(db.requests), caller.id, id, "update").value) && unchanged(db)
    ensures CheckOwned(old(db.requests), caller.id, id, "update").None? && !IsTruthyText(content) ==>
      r == Err(CreateBare("requestContent is required")) && unchanged(db)
    ensures CheckOwned(old(db.requests), caller.id, id, "update").None? && IsTruthyText(content) ==>
      r == Ok(200, "update your request successfully", ()) &&
      db.requests == old(db.requests)[id := old(db.requests)[id].(requestContent := content.value)] &&
      db.users == old(db.users) &&
      db.nextUserId == old(db.nextUserId) && db.nextRequestId == old(db.nextRequestId)
  {
    var e := CheckOwned(db.requests, caller.id, id, "update");
    if e.Some? {
      return Err(e.value);
    }
    if !IsTruthyText(content) {
      return Err(CreateBare("requestContent is required"));
    }
    db.requests := db.requests[id := db.requests[id].(requestContent := content.value)];
    r := Ok(200, "update your request successfully", ());
  }

  /** `deleteMyRequestById`: 404, then 401, changing nothing; otherwise exactly that request goes. */
  method DeleteMyRequestById(db: Db, caller: Claims, id: RequestId) returns (r: Reply<()>)
    requires db.Valid()
    modifies db
    ensures db.Valid()
    ensures CheckOwned(old(db.requests), caller.id, id, "delete").Some? ==>
      r == Err(CheckOwned(old(db.requests), caller.id, id, "delete").value) && unchanged(db)
    ensures CheckOwned(old(db.requests), caller.id, id, "delete").None? ==>
      r == Ok(200, "deleted request successfully", ()) &&
      db.requests == old(db.requests) - {id} && db.users == old(db.users) &&
      db.nextUserId == old(db.nextUserId) && db.nextRequestId == old(db.nextRequestId)
  {
    var e := CheckOwned(db.requests, caller.id, id, "delete");
    if e.Some? {
      return Err(e.value);
    }
    db.requests := db.requests - {id};
    r := Ok(200, "deleted request successfully", ());
  }

  // ---------------------------------------------------------------- facts about the handlers

  /** The missing-content error of `updateMyRequestById` is answered with 500 and ERROR,
      although it is a client mistake. */
  lemma MissingContentRendersAs500()
    ensures HandleError(CreateBare("requestContent is required")).httpStatus == 500
    ensures HandleError(CreateBare("requestContent is required")).status == ERROR
  {
    BareErrorRendering("requestContent is required");
  }

  /** Acceptance hands the owner a promotable role, which the user schema's `role` enum
      does not declare; `updateOne` runs no validator, so it is stored all the same. */
  lemma AcceptedContentIsUndeclaredRole(c: Collections, id: RequestId)
    requires id in c.requests && c.requests[id].userId in c.users
    requires IsPromotableRole(c.requests[id].requestContent)
    ensures !IsDeclaredRole(StatusUpdate(c, id, ACCEPTABLE).users[c.requests[id].userId].role)
  {
    AcceptanceGrantsRole(c, id);
    PromotableIsNotBase(c.requests[id].requestContent);
  }
}
