# OAuth 2.0 authorization-code server, modelled in Dafny

This project models the in-memory authorization server of
`authorization_code_flow.go`. The server implements the Authorization Code grant of
OAuth 2.0 (section 4.1 of RFC 6749). Its state is three string-to-string registries:

- `clients`: client id to client secret;
- `authCodes`: authorization code to client id;
- `accessTokens`: access token to client id.

Three request handlers act on this state:

- the authorization endpoint mints a 10-character code for a registered client and redirects to `redirect_uri?code=<code>`;
- the token endpoint trades a code for a 20-character `Bearer` token;
- the protected resource grants access exactly when the presented token is a key of the token registry.

Each handler is a pure function in `AuthServer` (`server.dfy`). It maps a `Server` to an `Outcome`, which holds the HTTP-level `Response` and the next `Server`.

The pseudorandom generator `randSeq` is modelled in `Alphabet` (`alphabet.dfy`). The method takes the indices that `rand.Intn` would have drawn and spells them out over the 62-letter alphabet. The handlers take their fresh code or token as a parameter. That parameter must be something the generator can produce: the right length, alphanumeric characters only. This set is exactly the generator's range. `Alphabet.RandSeq`'s contract with `Alphabet.SpelledStringIsAlnum` shows every output is such a string, and `Alphabet.EveryAlnumStringIsSpelled` shows every such string is an output.

`Flows` (`flows.dfy`) relates several handler calls to each other. `Session` (`session.dfy`) serves arbitrary sequences of requests and proves what holds after every one of them.

The model follows the code, not RFC 6749 or RFC 6750, in these places:

- an authorization code is not deleted when it is exchanged, so it can be redeemed again and again (`Flows.CodeIsReusable`, `Session.CodeStaysRedeemable`);
- the redirect URI is echoed, never checked against the client (`Flows.RedirectURIIsIgnored`);
- the client secret is stored but never checked at the token endpoint (`Flows.SecretIsIgnored`);
- a fresh code or token that collides with an existing one overwrites it (`Flows.CollidingCodeIsRebound`);
- the resource compares the raw `Authorization` header with the token registry, so the `Bearer <token>` form of section 2.1 of RFC 6750 is refused, although the token endpoint labels its tokens `Bearer` (`AuthServer.CheckResource`, `Flows.DemoScenario`).

The redirect is built by plain concatenation, `redirectURI + "?code=" + code`. A redirect URI that already has a query component therefore gets a second `?`. Section 3.1.2 of RFC 6749 says the existing query must be kept and the parameter added to it. The model keeps the concatenation as written.

## Model

| member | source | states |
|---|---|---|
| Alphabet.RandSeq | authorization_code_flow.go:69-76 | given the n indices drawn by `rand.Intn(62)`, returns a string of length exactly n whose k-th character is letter number `draws[k]` of the alphabet, so every character is in a–z, A–Z or 0–9 |
| Alphabet.LettersSpelledOut | authorization_code_flow.go:70 | the alphabet is the 62-character literal, lower case first, then upper case, then digits |
| Alphabet.AlphabetIsAlnum | authorization_code_flow.go:70 | the alphabet holds 62 pairwise distinct characters, and a character is in it if and only if it is in a–z, A–Z or 0–9 |
| Alphabet.IndexOf | authorization_code_flow.go:70 | every alphanumeric character has a position in the alphabet, and the letter at that position is the character itself |
| Alphabet.SpelledStringIsAlnum | authorization_code_flow.go:72-74 | any string spelled from draws into the alphabet is alphanumeric |
| Alphabet.EveryAlnumStringIsSpelled | authorization_code_flow.go:69-76 | every alphanumeric string of length n is spelled by some n draws, so the generator can produce any of them |
| Alphabet.SpellingIsUnique | authorization_code_flow.go:72-74 | two draw sequences that spell the same string are equal, so uniform draws give uniformly distributed codes and tokens |
| AuthServer.NewServer | authorization_code_flow.go:17-23 | a new server has no clients, no codes and no tokens, and is well formed |
| AuthServer.DemoServer | authorization_code_flow.go:86-87 | the booted server knows exactly one client, `my_client_id` with secret `my_client_secret`, and holds no codes or tokens |
| AuthServer.Status | authorization_code_flow.go:30-66 | the redirect is a 302, the token and the resource data are 200, `invalid_client` and `invalid_grant` are 400, `invalid_token` is 401; a response is 4xx exactly when it is a failure |
| AuthServer.ErrorName | authorization_code_flow.go:30-62 | the `error` string of a failure body is `invalid_client`, `invalid_grant` or `invalid_token`, each exactly for its own error |
| AuthServer.Authorize | authorization_code_flow.go:25-39 | fails with `invalid_client` exactly when the client id is not registered, and then changes nothing; otherwise redirects to `redirectURI + "?code=" + code`, binds the code to the client id, and leaves other codes, all clients and all tokens unchanged |
| AuthServer.ExchangeToken | authorization_code_flow.go:41-56 | fails with `invalid_grant` exactly when the code is unknown or bound to a different client id, and then changes nothing; otherwise returns the token with type `Bearer`, binds it to the client id, leaves other tokens unchanged, and leaves the codes untouched (the code is not consumed) |
| AuthServer.CheckResource | authorization_code_flow.go:58-67 | returns `secure data` exactly when the raw `Authorization` header value is a key of the token registry, `invalid_token` exactly when it is not, and never changes the state |
| Session.Step | authorization_code_flow.go:91-93 | serving any one request leaves the client registry unchanged and keeps every code and token bound to a registered client |
| Session.RunPreservesWellFormed | authorization_code_flow.go:29-53 | after any sequence of requests the clients are unchanged and every code and token is still bound to a registered client |
| Session.StepKeys | authorization_code_flow.go:29-53 | one request adds exactly the code of a granted authorization to the code keys and exactly the token of a granted exchange to the token keys; refused requests add nothing |
| Session.RunIssuedKeys | authorization_code_flow.go:35-66 | after any sequence of requests, the code keys are the earlier ones plus the codes of granted authorizations, and the token keys the earlier ones plus the tokens of granted exchanges; the resource accepts exactly those tokens, so an accepted token stays accepted and a string never issued as a token is refused with `invalid_token` |
| Session.CodeStaysRedeemable | authorization_code_flow.go:36-53 | an issued code still belongs to its client after any sequence of requests in which no other client is granted an authorization carrying the same string, and its exchange is still granted |
| Flows.AuthorizeExchangeAccess | authorization_code_flow.go:35-66 | for a registered client, authorizing, exchanging the returned code with the same client id, and presenting the token all succeed, and the token is bound to that client |
| Flows.RedirectEndsWithCode | authorization_code_flow.go:38 | the redirect location is the redirect URI, then `?code=`, then the code, and the code is its last ten characters |
| Flows.CodeIsReusable | authorization_code_flow.go:45-55 | exchanging the same valid code twice is granted both times, and both tokens end up bound to the client |
| Flows.CollidingCodeIsRebound | authorization_code_flow.go:35-46 | a fresh code equal to another client's code overwrites it: the code now belongs to the new client, and the original client's exchange fails with `invalid_grant` |
| Flows.SecretIsIgnored | authorization_code_flow.go:41-53 | the exchange has the same result whatever secrets the registered clients hold |
| Flows.RedirectURIIsIgnored | authorization_code_flow.go:25-38 | two authorizations that differ only in the redirect URI leave the same state and both succeed or both fail |
| Flows.DemoScenario | authorization_code_flow.go:83-94 | on the booted server, `my_client_id` completes authorize, exchange and resource access; `unknown_client` is refused with a 400 `invalid_client`; `garbage-token` and the issued token behind a `Bearer ` prefix are refused with a 401 `invalid_token` |

## Left out

- HTTP transport: gin's query, form and header extraction, JSON encoding and `c.Redirect` are not modelled. Handler inputs are plain strings. The output is the `Response` datatype, its status code (`AuthServer.Status`) and the `error` string of failures (`AuthServer.ErrorName`).
- `CallbackHandler` (lines 78-81): it only echoes the `code` query parameter and never touches the registries.
- The listening port and the gin engine in `main`: not modelled. The bootstrap client is `AuthServer.DemoServer`, and the three routes to the handlers are the dispatch in `Session.Step`.
- `math/rand` and its time-based seed: nondeterministic foreign calls. The drawn indices are an input of `Alphabet.RandSeq`. The handlers receive the minted string as a parameter restricted to what the generator can return.
- Concurrency: the registries are Go maps shared by concurrent handlers with no lock. The model serves requests one at a time.
- What happens to the redirect location after the handler: `Redirect(location)` is the string the handler passes to `c.Redirect`. The HTTP library resolves a relative URI against the request path, cleans it and escapes non-ASCII bytes before writing the `Location` header, and the client's URL parser reads it afterwards; none of that is modelled.
