/** The two MongoDB collections the handlers use, as a mutable store, and the queries and
    bulk writes they issue, as functions on the collections. */
module Store {
  import opened Wrappers
  import opened Schema

  /** The `users` and `requests` collections. New ids come from counters above every id in use. */
  class Db {
    var users: map<UserId, User>
    var requests: map<RequestId, Request>
    var nextUserId: UserId
    var nextRequestId: RequestId

    /** Every id is below its counter, and the unique index on email holds. */
    ghost predicate Valid()
      reads this
    {
      (forall id :: id in users ==> id < nextUserId) &&
      (forall id :: id in requests ==> id < nextRequestId) &&
      EmailsUnique(users)
    }

    /** Two empty collections. */
    constructor()
      ensures Valid()
      ensures users == map[] && requests == map[]
    {
      users := map[];
      requests := map[];
      nextUserId := 0;
      nextRequestId := 0;
    }
  }

  // ---------------------------------------------------------------- queries

  /** `findOne({ email })`: under the unique index at most one user matches. */
  function FindByEmail(users: map<UserId, User>, email: string): (r: Option<UserId>)
    requires EmailsUnique(users)
    ensures r.Some? ==> r.value in users && users[r.value].email == email
    ensures r.None? ==> forall id :: id in users ==> users[id].email != email
  {
    if exists id :: id in users && users[id].email == email then
      var id :| id in users && users[id].email == email; Some(id)
    else
      None
  }

  /** The `find` filters of the list handlers. */
  datatype RequestFilter = ByStatus(status: string) | ByContent(content: string) | AnyRequest

  predicate Selects(f: RequestFilter, r: Request) {
    match f
    case ByStatus(s) => r.status == s
    case ByContent(c) => r.requestContent == c
    case AnyRequest => true
  }

  /** `find(filter)`, optionally with `userId` conjoined. */
  function FindRequests(requests: map<RequestId, Request>, f: RequestFilter, owner: Option<UserId>): (found: map<RequestId, Request>)
    ensures forall id :: id in found <==>
      id in requests && Selects(f, requests[id]) && (owner.Some? ==> requests[id].userId == owner.value)
    ensures forall id :: id in found ==> found[id] == requests[id]
  {
    map id | id in requests && Selects(f, requests[id]) && (owner.Some? ==> requests[id].userId == owner.value) :: requests[id]
  }

  /** The owner-scoped listing is the unscoped listing cut down to the owner's requests. */
  lemma OwnedListingIsSlice(requests: map<RequestId, Request>, f: RequestFilter, owner: UserId)
    ensures FindRequests(requests, f, Some(owner)) ==
      map id | id in FindRequests(requests, f, None) && FindRequests(requests, f, None)[id].userId == owner
             :: FindRequests(requests, f, None)[id]
  {
  }

  // ---------------------------------------------------------------- writes

  /** `insertOne` of a user whose email no stored user has keeps the email index unique. */
  lemma InsertKeepsEmailsUnique(users: map<UserId, User>, id: UserId, u: User)
    requires EmailsUnique(users) && id !in users
    requires forall k :: k in users ==> users[k].email != u.email
    ensures EmailsUnique(users[id := u])
  {
    var after := users[id := u];
    forall a, b | a in after && b in after && after[a].email == after[b].email ensures a == b {
      if a != id && b != id {
        assert users[a].email == users[b].email;
      }
    }
  }

  /** `updateOne({ _id: id }, { $set: { role } })`: nothing happens when no user has that id. */
  function SetRole(users: map<UserId, User>, id: UserId, role: string): (r: map<UserId, User>)
    ensures r.Keys == users.Keys
    ensures forall u :: u in users && u != id ==> r[u] == users[u]
    ensures id in users ==> r[id] == users[id].(role := role)
  {
    if id in users then users[id := users[id].(role := role)] else users
  }

  /** `deleteMany({ userId: owner, status: "Pending" })`. */
  function DeletePendingOf(requests: map<RequestId, Request>, owner: UserId): (r: map<RequestId, Request>)
    ensures forall id :: id in r <==> id in requests && !(requests[id].userId == owner && requests[id].status == PENDING)
    ensures forall id :: id in r ==> r[id] == requests[id]
  {
    map id | id in requests && !(requests[id].userId == owner && requests[id].status == PENDING) :: requests[id]
  }

  /** Changing a role keeps every email in place, so the unique index still holds. */
  lemma SetRoleKeepsEmails(users: map<UserId, User>, id: UserId, role: string)
    requires EmailsUnique(users)
    ensures EmailsUnique(SetRole(users, id, role))
  {
    var r := SetRole(users, id, role);
    forall a, b | a in r && b in r && r[a].email == r[b].email ensures a == b {
      assert r[a].email == users[a].email && r[b].email == users[b].email;
    }
  }
}
