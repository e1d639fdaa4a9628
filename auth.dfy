/** The `auth` middleware of middlewares/auth.js, and the two foreign cryptographic
    services the handlers use, bcrypt and jsonwebtoken, as uninterpreted functions. */
module Auth {
  import opened Wrappers
  import opened Strings
  import Schema

  /** The claims a token carries, and what `req.user` becomes. */
  datatype Claims = Claims(id: Schema.UserId, email: string, role: string)

  /** bcrypt's `hash` and `compare`, jsonwebtoken's `sign`, and `verify` as a partial
      function (None where it throws: bad signature, expired, malformed). The secret and
      the salt rounds are fixed and so are not parameters. */
  datatype Crypto = Crypto(
    hash: string -> string,
    compare: (string, string) -> bool,
    sign: Claims -> string,
    verify: string -> Option<Claims>)

  /** The one link assumed between hashing and comparing: a password matches its own hash. */
  ghost predicate HashMatches(c: Crypto) {
    forall p :: c.compare(p, c.hash(p))
  }

  /** What a client needs to use a token: it holds no space and verifies to its claims. */
  ghost predicate TokensRoundTrip(c: Crypto) {
    forall cl :: ' ' !in c.sign(cl) && c.verify(c.sign(cl)) == Some(cl)
  }

  const SIGN_IN_MESSAGE := "Please sign in to continue."
  const EXPIRED_MESSAGE := "Session expired, please sign in again."

  /** The middleware either calls `next` with `req.user` set, or answers 401 with a body
      holding `message` only (not the standard envelope). */
  datatype AuthOutcome = Authenticated(user: Claims) | Rejected(code: int, message: string)

  const PREFIX := "Bearer "

  /** `authHeader.split(" ")[1]`: the text after "Bearer " up to the next space. */
  function BearerToken(header: string): (token: string)
    requires StartsWith(header, PREFIX)
    ensures token == header[7..][..IndexOf(header[7..], ' ')]
  {
    assert IndexOf(header, ' ') == 6 by {
      assert header[..7] == PREFIX;
      IndexOfIsFirst(header, ' ', 6);
    }
    assert Split(header, ' ')[1..] == Split(header[7..], ' ');
    Split(header, ' ')[1]
  }

  /** A token without spaces comes back out of the header built around it. */
  lemma BearerTokenRoundTrip(token: string)
    requires ' ' !in token
    ensures StartsWith(PREFIX + token, PREFIX)
    ensures BearerToken(PREFIX + token) == token
  {
    var h := PREFIX + token;
    assert h[..7] == PREFIX;
    assert h[7..] == token;
    IndexOfIsFirst(token, ' ', |token|);
  }

  /** A second space right after the prefix gives the empty token. */
  lemma DoubleSpaceGivesEmptyToken(rest: string)
    ensures StartsWith(PREFIX + " " + rest, PREFIX)
    ensures BearerToken(PREFIX + " " + rest) == ""
  {
    var h := PREFIX + " " + rest;
    assert h[..7] == PREFIX;
    assert h[7..][0] == ' ';
    IndexOfIsFirst(h[7..], ' ', 0);
  }

  /** `auth`: an absent, empty or non-"Bearer " header is rejected before any verification;
      a token `verify` refuses is rejected as expired; otherwise the claims pass on. */
  function Authenticate(header: Option<string>, verify: string -> Option<Claims>): (r: AuthOutcome)
    ensures r.Rejected? ==> r.code == 401
    ensures (header.None? || !StartsWith(header.value, PREFIX)) ==> r == Rejected(401, SIGN_IN_MESSAGE)
    ensures header.Some? && StartsWith(header.value, PREFIX) ==>
      r == match verify(BearerToken(header.value))
             case None => Rejected(401, EXPIRED_MESSAGE)
             case Some(claims) => Authenticated(Claims(claims.id, claims.email, claims.role))
  {
    if header.None? || header.value == "" || !StartsWith(header.value, PREFIX) then
      Rejected(401, SIGN_IN_MESSAGE)
    else
      match verify(BearerToken(header.value))
      case None => Rejected(401, EXPIRED_MESSAGE)
      case Some(claims) => Authenticated(Claims(claims.id, claims.email, claims.role))
  }

  /** A caller presenting "Bearer " and a token the services issued is authenticated as
      exactly the claims that were signed. */
  lemma IssuedTokenAuthenticates(c: Crypto, claims: Claims)
    requires TokensRoundTrip(c)
    ensures Authenticate(Some(PREFIX + c.sign(claims)), c.verify) == Authenticated(claims)
  {
    assert ' ' !in c.sign(claims) && c.verify(c.sign(claims)) == Some(claims);
    BearerTokenRoundTrip(c.sign(claims));
  }

  /** Authentication succeeds exactly when the header has the prefix and its token verifies. */
  lemma AuthenticatedIff(header: Option<string>, verify: string -> Option<Claims>)
    ensures Authenticate(header, verify).Authenticated? <==>
      header.Some? && StartsWith(header.value, PREFIX) && verify(BearerToken(header.value)).Some?
  {
  }
}
