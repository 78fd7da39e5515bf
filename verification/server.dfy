/** The in-memory authorization server of the OAuth 2.0 Authorization Code
    grant (section 4.1 of RFC 6749), as the repository implements it.

    The server state is three registries of strings: client id to secret,
    authorization code to client id, and access token to client id. Each
    request handler is a pure transition from a state to a response and the
    next state. Fresh codes and tokens come in as parameters constrained to
    what the identifier generator can produce.

    The handlers follow the repository, which departs from RFC 6749 in four
    ways: a code is not consumed when it is exchanged, the redirect URI is
    never compared with the client's, the client secret is never checked, and
    a fresh code or token that collides with an existing one overwrites it.
    It also departs from RFC 6750: the resource compares the whole
    `Authorization` header with the token, without a `Bearer ` prefix.
 */
module AuthServer {
  import Alphabet

  /** The three registries of the server. */
  datatype Server = Server(
    clients: map<string, string>,       // client id -> client secret
    authCodes: map<string, string>,     // authorization code -> client id
    accessTokens: map<string, string>   // access token -> client id
  )

  /** The caller-facing errors, one per handler. */
  datatype OAuthError = InvalidClient | InvalidGrant | InvalidToken

  /** What a handler sends back over HTTP. */
  datatype Response =
    | Redirect(location: string)                        // 302 to the client's redirect URI
    | Granted(accessToken: string, tokenType: string)   // 200 with the token JSON
    | Data(data: string)                                // 200 from the protected resource
    | Failure(error: OAuthError)                        // 400 or 401 with an error JSON

  /** A response together with the state the handler leaves behind. */
  datatype Outcome = Outcome(response: Response, server: Server)

  const CodeLength: nat := 10
  const TokenLength: nat := 20
  const BearerType: string := "Bearer"
  const SecureData: string := "secure data"

  /** The `error` field of the JSON body of a failure response: each error
      is reported under its own name. */
  function ErrorName(e: OAuthError): (name: string)
    ensures name == "invalid_client" <==> e == InvalidClient
    ensures name == "invalid_grant" <==> e == InvalidGrant
    ensures name == "invalid_token" <==> e == InvalidToken
  {
    match e
    case InvalidClient => "invalid_client"
    case InvalidGrant => "invalid_grant"
    case InvalidToken => "invalid_token"
  }

  /** The HTTP status code of each response. */
  function Status(r: Response): (code: int)
    ensures code == 302 <==> r.Redirect?
    ensures code == 200 <==> r.Granted? || r.Data?
    ensures code == 400 <==> r.Failure? && r.error != InvalidToken
    ensures code == 401 <==> r == Failure(InvalidToken)
    ensures r.Failure? <==> 400 <= code < 500
  {
    match r
    case Redirect(_) => 302
    case Granted(_, _) => 200
    case Data(_) => 200
    case Failure(InvalidToken) => 401
    case Failure(_) => 400
  }

  /** A string the identifier generator can return for length `n`. */
  predicate IsFresh(v: string, n: nat) {
    |v| == n && Alphabet.IsAlnumString(v)
  }

  /** Every code and every token was issued to a registered client. */
  predicate WellFormed(s: Server) {
    && (forall code :: code in s.authCodes ==> s.authCodes[code] in s.clients)
    && (forall token :: token in s.accessTokens ==> s.accessTokens[token] in s.clients)
  }

  /** `m'` agrees with `m` on every key other than `k`. */
  predicate SameExcept(m: map<string, string>, m': map<string, string>, k: string) {
    m - {k} == m' - {k}
  }

  /** The server as freshly constructed: all three registries empty. */
  function NewServer(): (s: Server)
    ensures WellFormed(s)
    ensures forall id :: id !in s.clients
    ensures forall code :: code !in s.authCodes
    ensures forall token :: token !in s.accessTokens
  {
    Server(map[], map[], map[])
  }

  /** The server as the program boots it: one client registered with its secret. */
  function DemoServer(): (s: Server)
    ensures WellFormed(s)
    ensures s.clients.Keys == {"my_client_id"} && s.clients["my_client_id"] == "my_client_secret"
    ensures forall code :: code !in s.authCodes
    ensures forall token :: token !in s.accessTokens
  {
    var s0 := NewServer();
    s0.(clients := s0.clients["my_client_id" := "my_client_secret"])
  }

  /** The authorization endpoint. An unregistered client id is refused with
      `invalid_client` and changes nothing. A registered one, with no check
      of the redirect URI and no user consent, gets the fresh `code` bound to
      it and a redirect to `redirectURI` carrying the code. */
  function Authorize(s: Server, clientID: string, redirectURI: string, code: string): (o: Outcome)
    requires IsFresh(code, CodeLength)
    ensures o.response.Failure? <==> clientID !in s.clients
    ensures clientID !in s.clients ==> o.response == Failure(InvalidClient) && o.server == s
    ensures clientID in s.clients ==>
      && o.response == Redirect(redirectURI + "?code=" + code)
      && code in o.server.authCodes && o.server.authCodes[code] == clientID
      && SameExcept(s.authCodes, o.server.authCodes, code)
      && o.server.clients == s.clients
      && o.server.accessTokens == s.accessTokens
  {
    if clientID !in s.clients then
      Outcome(Failure(InvalidClient), s)
    else
      Outcome(Redirect(redirectURI + "?code=" + code),
              s.(authCodes := s.authCodes[code := clientID]))
  }

  /** The token endpoint. The code must be known and bound to the same client
      id that presents it, or the request is refused with `invalid_grant` and
      changes nothing. The secret is not checked and the code is not consumed:
      the fresh `token` is bound to the client and returned as a bearer token. */
  function ExchangeToken(s: Server, code: string, clientID: string, token: string): (o: Outcome)
    requires IsFresh(token, TokenLength)
    ensures o.response.Failure? <==> !(code in s.authCodes && s.authCodes[code] == clientID)
    ensures o.response.Failure? ==> o.response == Failure(InvalidGrant) && o.server == s
    ensures !o.response.Failure? ==>
      && o.response == Granted(token, "Bearer")
      && token in o.server.accessTokens && o.server.accessTokens[token] == clientID
      && SameExcept(s.accessTokens, o.server.accessTokens, token)
      && o.server.authCodes == s.authCodes
      && o.server.clients == s.clients
  {
    if code !in s.authCodes || s.authCodes[code] != clientID then
      Outcome(Failure(InvalidGrant), s)
    else
      Outcome(Granted(token, BearerType),
              s.(accessTokens := s.accessTokens[token := clientID]))
  }

  /** The protected resource. The whole decision is whether the raw value of
      the `Authorization` header is a key of the token registry; nothing
      changes either way. The header is not parsed, so the usual
      `Bearer <token>` form is refused. */
  function CheckResource(s: Server, authorization: string): (o: Outcome)
    ensures o.server == s
    ensures o.response == Data("secure data") <==> authorization in s.accessTokens
    ensures o.response == Failure(InvalidToken) <==> authorization !in s.accessTokens
  {
    if authorization !in s.accessTokens then
      Outcome(Failure(InvalidToken), s)
    else
      Outcome(Data(SecureData), s)
  }
}
