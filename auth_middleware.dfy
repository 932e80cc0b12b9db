/** The request gates of the event and booking services. `verifyToken` takes the second
    space-separated piece of the `Authorization` header as the token, asks the
    authentication service about `Bearer <token>`, and either attaches the user it names
    and lets the request through or answers 401. `isAdmin` lets through only a request
    whose attached user has the role 'admin'. Both services run the same `verifyToken`.

    The authentication service is a function from the header it receives to its answer;
    a network error or a non-2xx status is `VerifyFailed`. */
module AuthMiddleware {
  import opened Common
  import opened JsString

  const NoToken := "No token provided"
  const InvalidToken := "Invalid token"
  const AuthFailed := "Authentication failed"
  const AdminOnly := "Access denied. Admin only."

  /** The verify endpoint's answer: its `valid` flag and `user`, or a failed call. */
  datatype VerifyAnswer = Answer(valid: bool, user: Option<User>) | VerifyFailed

  /** A gate either hands the request on or ends it with a status and an error. */
  datatype GateOutcome = Continue | Reject(status: int, error: string)

  /** The token of `authorization?.split(' ')[1]`, when that is a non-empty string. */
  function BearerToken(header: Option<string>): (token: Option<string>)
    ensures header.None? ==> token.None?
    ensures token.Some? ==> token.value != "" && ' ' !in token.value
  {
    match header
    case None => None
    case Some(h) =>
      var parts := Split(h, ' ');
      if |parts| >= 2 && parts[1] != "" then Some(parts[1]) else None
  }

  /** Whatever the scheme word, the piece after the first space up to the next space (or
      the end) is the token; the scheme itself is not checked. */
  lemma TokenOfHeader(scheme: string, token: string, rest: string)
    requires ' ' !in scheme && ' ' !in token && token != ""
    requires rest == [] || rest[0] == ' '
    ensures BearerToken(Some(scheme + " " + token + rest)) == Some(token)
  {
    assert scheme + " " + token + rest == scheme + [' '] + (token + rest);
    SplitAtSeparator(scheme, token + rest, ' ');
    SplitFirstPiece(token, rest, ' ');
  }

  /** A header without a space, or with nothing between its first two spaces, carries no
      token. */
  lemma NoTokenWithoutSecondPiece(h: string)
    requires ' ' !in h || (exists a, b :: h == a + "  " + b && ' ' !in a)
    ensures BearerToken(Some(h)).None?
  {
    if ' ' !in h {
      SplitNoSeparator(h, ' ');
    } else {
      var a, b :| h == a + "  " + b && ' ' !in a;
      assert h == a + [' '] + ([' '] + b);
      SplitAtSeparator(a, [' '] + b, ' ');
      SplitFirstPiece([], [' '] + b, ' ');
      assert [] + ([' '] + b) == [' '] + b;
    }
  }

  /** The header the gate sends to the authentication service. */
  function ForwardedHeader(token: string): string {
    "Bearer " + token
  }

  /** The gate's decision and, when it lets the request through, the user it attaches. */
  datatype GateResult = GateResult(outcome: GateOutcome, user: Option<User>)

  /** `verifyToken` as a function of the header and the authentication service. */
  function Gate(header: Option<string>, verify: string -> VerifyAnswer): (r: GateResult)
    ensures BearerToken(header).None? ==> r.outcome == Reject(401, NoToken)
    ensures BearerToken(header).Some? ==>
      var answer := verify(ForwardedHeader(BearerToken(header).value));
      && (r.outcome == Continue <==> answer.Answer? && answer.valid)
      && (r.outcome == Continue ==> r.user == answer.user)
      && (r.outcome == Reject(401, InvalidToken) <==> answer.Answer? && !answer.valid)
      && (r.outcome == Reject(401, AuthFailed) <==> answer.VerifyFailed?)
  {
    match BearerToken(header)
    case None => GateResult(Reject(401, NoToken), None)
    case Some(token) =>
      match verify(ForwardedHeader(token))
      case VerifyFailed => GateResult(Reject(401, AuthFailed), None)
      case Answer(valid, user) =>
        if valid then GateResult(Continue, user) else GateResult(Reject(401, InvalidToken), None)
  }

  /** Without a token the authentication service is never consulted: the outcome is the
      same whatever it would answer. */
  lemma NoTokenIgnoresVerifier(header: Option<string>, v1: string -> VerifyAnswer, v2: string -> VerifyAnswer)
    requires BearerToken(header).None?
    ensures Gate(header, v1) == Gate(header, v2) == GateResult(Reject(401, NoToken), None)
  {
  }

  /** The outcome depends only on what the authentication service says about this one
      token. */
  lemma GateDependsOnlyOnToken(header: Option<string>, v1: string -> VerifyAnswer, v2: string -> VerifyAnswer)
    requires BearerToken(header).Some?
    requires v1(ForwardedHeader(BearerToken(header).value)) == v2(ForwardedHeader(BearerToken(header).value))
    ensures Gate(header, v1) == Gate(header, v2)
  {
  }

  /** A failed call to the authentication service never lets the request through. */
  lemma VerifierFailureRejects(header: Option<string>, verify: string -> VerifyAnswer)
    requires BearerToken(header).Some? && verify(ForwardedHeader(BearerToken(header).value)).VerifyFailed?
    ensures Gate(header, verify).outcome == Reject(401, AuthFailed)
  {
  }

  /** `isAdmin`: only an attached user whose role is 'admin' passes. */
  function AdminCheck(user: Option<User>): (outcome: GateOutcome)
    ensures outcome == Continue <==> user.Some? && user.value.role == "admin"
    ensures outcome != Continue ==> outcome == Reject(403, AdminOnly)
  {
    if user.Some? && user.value.role == "admin" then Continue else Reject(403, AdminOnly)
  }

  /** The admin routes run both gates: a request reaches the handler exactly when its
      token is accepted and the authentication service names an admin as its user. */
  lemma AdminChain(header: Option<string>, verify: string -> VerifyAnswer)
    ensures var g := Gate(header, verify);
      (g.outcome == Continue && AdminCheck(g.user) == Continue) <==>
        && BearerToken(header).Some?
        && var answer := verify(ForwardedHeader(BearerToken(header).value));
           answer.Answer? && answer.valid && answer.user.Some? && answer.user.value.role == "admin"
  {
  }

  /** The part of an incoming request the gates read and write. */
  class Request {
    var authorization: Option<string>
    var user: Option<User>

    constructor (authorization: Option<string>)
      ensures this.authorization == authorization && user.None?
    {
      this.authorization := authorization;
      user := None;
    }

    /** `verifyToken`: on success `req.user` is set from the answer and the request goes
        on; otherwise the request is left as it was and the 401 is returned. */
    method VerifyToken(verify: string -> VerifyAnswer) returns (outcome: GateOutcome)
      modifies this
      ensures authorization == old(authorization)
      ensures outcome == Gate(authorization, verify).outcome
      ensures outcome == Continue ==> user == Gate(authorization, verify).user
      ensures outcome != Continue ==> user == old(user)
    {
      var token := BearerToken(authorization);
      if token.None? {
        return Reject(401, NoToken);
      }
      var response := verify(ForwardedHeader(token.value));
      if response.VerifyFailed? {
        return Reject(401, AuthFailed);
      }
      if response.valid {
        user := response.user;
        outcome := Continue;
      } else {
        return Reject(401, InvalidToken);
      }
    }
  }
}
