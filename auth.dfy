/** The API's JWT middleware: the token taken from the Authorization
    header, and the 401 / 403 / next decisions of `authenticateToken` and
    `optionalAuth`. Token verification is a parameter. */
module Auth {
  import opened Js
  import opened Http

  /** `authHeader && authHeader.split(" ")[1]`, when that is truthy. */
  function BearerToken(header: Option<string>): (t: Option<string>)
    ensures t.Some? ==> t.value != "" && ' ' !in t.value
    ensures t.Some? ==> header.Some? && ' ' in header.value
  {
    if header.None? || header.value == "" then None
    else
      var parts := Split(header.value, ' ');
      if |parts| < 2 || parts[1] == "" then None else Some(parts[1])
  }

  /** The token is the second word, whatever the first one says: the
      scheme is never checked. */
  lemma TokenIsSecondWord(scheme: string, token: string, rest: string)
    requires ' ' !in scheme && ' ' !in token && token != ""
    requires rest == "" || rest[0] == ' '
    ensures BearerToken(Some(scheme + " " + token + rest)) == Some(token)
  {
    var h := scheme + " " + token + rest;
    assert h[..|scheme|] == scheme;
    assert h[|scheme| + 1..] == token + rest;
    SplitAfter(h, ' ', |scheme|);
    assert (token + rest)[..|token|] == token;
    SplitFirst(token + rest, ' ', |token|);
  }

  /** A header of one word, or with nothing right after the first space,
      carries no token. */
  lemma NoSecondWord(scheme: string, rest: string)
    requires ' ' !in scheme
    requires rest == "" || rest[0] == ' '
    ensures BearerToken(Some(scheme)) == None
    ensures BearerToken(Some(scheme + " " + rest)) == None
  {
    var h := scheme + " " + rest;
    assert h[..|scheme|] == scheme;
    assert h[|scheme| + 1..] == rest;
    SplitAfter(h, ' ', |scheme|);
    SplitFirst(rest, ' ', 0);
  }

  /** What verifyToken returns: the subject and the optional claims. */
  datatype Payload = Payload(sub: string, email: Json, name: Json)

  /** req.user */
  datatype User = User(id: string, email: Json, name: Json)

  function UserOf(p: Payload): User {
    User(p.sub, p.email, p.name)
  }

  /** What the middleware did: called next, or answered itself. */
  datatype Decision = Next | Respond(reply: Reply)

  const NoToken := "Authentication required. Please provide a valid token."
  const BadToken := "Invalid or expired token. Please sign in again."

  /** The parts of the Express request the middleware reads and writes. */
  class AuthRequest {
    const authorization: Option<string>
    var user: Option<User>

    constructor(authorization: Option<string>, user: Option<User>)
      ensures this.authorization == authorization && this.user == user
    {
      this.authorization := authorization;
      this.user := user;
    }

    /** authenticateToken: 401 without a token, 403 when it does not
        verify, and otherwise req.user from the payload and next. */
    method AuthenticateToken(verify: string -> Option<Payload>) returns (outcome: Decision)
      modifies this
      ensures BearerToken(authorization).None? ==>
        outcome == Respond(Failure(401, NoToken)) && user == old(user)
      ensures BearerToken(authorization).Some? && verify(BearerToken(authorization).value).None? ==>
        outcome == Respond(Failure(403, BadToken)) && user == old(user)
      ensures BearerToken(authorization).Some? && verify(BearerToken(authorization).value).Some? ==>
        outcome == Next && user == Some(UserOf(verify(BearerToken(authorization).value).value))
      ensures outcome == Next <==> BearerToken(authorization).Some? && verify(BearerToken(authorization).value).Some?
    {
      var token := BearerToken(authorization);
      if token.None? {
        return Respond(Failure(401, NoToken));
      }
      var payload := verify(token.value);
      if payload.None? {
        return Respond(Failure(403, BadToken));
      }
      user := Some(UserOf(payload.value));
      outcome := Next;
    }

    /** optionalAuth: always next; req.user is set only from a token that
        verifies and is left as it was otherwise. */
    method OptionalAuth(verify: string -> Option<Payload>) returns (outcome: Decision)
      modifies this
      ensures outcome == Next
      ensures BearerToken(authorization).Some? && verify(BearerToken(authorization).value).Some? ==>
        user == Some(UserOf(verify(BearerToken(authorization).value).value))
      ensures BearerToken(authorization).None? || verify(BearerToken(authorization).value).None? ==>
        user == old(user)
    {
      var token := BearerToken(authorization);
      if token.Some? {
        var payload := verify(token.value);
        if payload.Some? {
          user := Some(UserOf(payload.value));
        }
      }
      outcome := Next;
    }
  }
}
