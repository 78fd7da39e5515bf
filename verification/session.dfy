/** The server over a whole sequence of requests, served one after another.

    Each request carries the fresh value the generator would have minted for
    it. The lemmas show what holds for every sequence of requests: the client
    registry never changes, every code and token stays bound to a registered
    client, nothing is ever removed, a token exists only if a granted exchange
    issued it, and an issued code stays redeemable as long as no other
    client is granted an authorization carrying the same string.
 */
module Session {
  import opened AuthServer

  datatype Request =
    | AuthorizeRequest(clientID: string, redirectURI: string, code: string)
    | TokenRequest(code: string, clientID: string, token: string)
    | ResourceRequest(token: string)

  /** The fresh value a request carries is one the generator can produce. */
  predicate ValidRequest(r: Request) {
    match r
    case AuthorizeRequest(_, _, code) => IsFresh(code, CodeLength)
    case TokenRequest(_, _, token) => IsFresh(token, TokenLength)
    case ResourceRequest(_) => true
  }

  predicate ValidRequests(reqs: seq<Request>) {
    forall i :: 0 <= i < |reqs| ==> ValidRequest(reqs[i])
  }

  /** Dispatch one request to its handler. */
  function Step(s: Server, r: Request): (o: Outcome)
    requires ValidRequest(r)
    ensures o.server.clients == s.clients
    ensures WellFormed(s) ==> WellFormed(o.server)
  {
    match r
    case AuthorizeRequest(clientID, redirectURI, code) => Authorize(s, clientID, redirectURI, code)
    case TokenRequest(code, clientID, token) => ExchangeToken(s, code, clientID, token)
    case ResourceRequest(token) => CheckResource(s, token)
  }

  /** The state after serving `reqs` in order. */
  function Run(s: Server, reqs: seq<Request>): Server
    requires ValidRequests(reqs)
    decreases |reqs|
  {
    if |reqs| == 0 then s else Run(Step(s, reqs[0]).server, reqs[1..])
  }

  /** The codes minted by the authorization requests of `reqs` that were
      granted; a refused request never reaches the generator. */
  function IssuedCodes(s: Server, reqs: seq<Request>): set<string>
    requires ValidRequests(reqs)
    decreases |reqs|
  {
    if |reqs| == 0 then {}
    else
      var o := Step(s, reqs[0]);
      (if reqs[0].AuthorizeRequest? && !o.response.Failure? then {reqs[0].code} else {})
      + IssuedCodes(o.server, reqs[1..])
  }

  /** The tokens minted by the token requests of `reqs` that were granted. */
  function IssuedTokens(s: Server, reqs: seq<Request>): set<string>
    requires ValidRequests(reqs)
    decreases |reqs|
  {
    if |reqs| == 0 then {}
    else
      var o := Step(s, reqs[0]);
      (if reqs[0].TokenRequest? && !o.response.Failure? then {reqs[0].token} else {})
      + IssuedTokens(o.server, reqs[1..])
  }

  /** The client ids whose granted authorization requests in `reqs` minted `code`. */
  function CodeGrantees(s: Server, reqs: seq<Request>, code: string): set<string>
    requires ValidRequests(reqs)
    decreases |reqs|
  {
    if |reqs| == 0 then {}
    else
      var o := Step(s, reqs[0]);
      (if reqs[0].AuthorizeRequest? && !o.response.Failure? && reqs[0].code == code
       then {reqs[0].clientID} else {})
      + CodeGrantees(o.server, reqs[1..], code)
  }

  /** One request adds to the code registry exactly the code of a granted
      authorization, and to the token registry exactly the token of a granted
      exchange. */
  lemma StepKeys(s: Server, r: Request)
    requires ValidRequest(r)
    ensures
      var o := Step(s, r);
      && o.server.authCodes.Keys
           == s.authCodes.Keys + (if r.AuthorizeRequest? && !o.response.Failure? then {r.code} else {})
      && o.server.accessTokens.Keys
           == s.accessTokens.Keys + (if r.TokenRequest? && !o.response.Failure? then {r.token} else {})
  {
  }

  /** No request changes the client registry, and every code and token stays
      bound to a registered client. */
  lemma {:induction false} RunPreservesWellFormed(s: Server, reqs: seq<Request>)
    requires ValidRequests(reqs)
    requires WellFormed(s)
    ensures Run(s, reqs).clients == s.clients
    ensures WellFormed(Run(s, reqs))
    decreases |reqs|
  {
    if |reqs| > 0 {
      RunPreservesWellFormed(Step(s, reqs[0]).server, reqs[1..]);
    }
  }

  /** After any run, the codes are those there before plus those issued by
      granted authorizations, and the tokens those there before plus those
      issued by granted exchanges. Nothing is ever removed, so a token the
      resource accepted stays accepted, and a string that was never issued
      as a token is refused with `invalid_token`. */
  lemma {:induction false} RunIssuedKeys(s: Server, reqs: seq<Request>)
    requires ValidRequests(reqs)
    ensures Run(s, reqs).authCodes.Keys == s.authCodes.Keys + IssuedCodes(s, reqs)
    ensures Run(s, reqs).accessTokens.Keys == s.accessTokens.Keys + IssuedTokens(s, reqs)
    ensures forall t :: CheckResource(Run(s, reqs), t).response == Data("secure data")
                        <==> t in s.accessTokens || t in IssuedTokens(s, reqs)
    ensures forall t :: CheckResource(Run(s, reqs), t).response == Failure(InvalidToken)
                        <==> t !in s.accessTokens && t !in IssuedTokens(s, reqs)
    decreases |reqs|
  {
    if |reqs| > 0 {
      StepKeys(s, reqs[0]);
      RunIssuedKeys(Step(s, reqs[0]).server, reqs[1..]);
    }
  }

  /** An issued code is never consumed: after any run in which no other
      client is granted an authorization carrying the same string, the
      client it was issued to can still exchange it. */
  lemma {:induction false} CodeStaysRedeemable(s: Server, reqs: seq<Request>, code: string, clientID: string, token: string)
    requires ValidRequests(reqs)
    requires code in s.authCodes && s.authCodes[code] == clientID
    requires CodeGrantees(s, reqs, code) <= {clientID}
    requires IsFresh(token, TokenLength)
    ensures code in Run(s, reqs).authCodes && Run(s, reqs).authCodes[code] == clientID
    ensures ExchangeToken(Run(s, reqs), code, clientID, token).response == Granted(token, "Bearer")
    decreases |reqs|
  {
    if |reqs| > 0 {
      var o := Step(s, reqs[0]);
      if reqs[0].AuthorizeRequest? && !o.response.Failure? && reqs[0].code != code {
        assert code in s.authCodes - {reqs[0].code};
      }
      if reqs[0].TokenRequest? {
        assert o.server.authCodes == s.authCodes;
      }
      assert code in o.server.authCodes && o.server.authCodes[code] == clientID;
      CodeStaysRedeemable(o.server, reqs[1..], code, clientID, token);
    }
  }
}
