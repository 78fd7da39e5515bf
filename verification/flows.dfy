/** Properties of the grant that relate several handler calls: the happy path
    from authorization to resource access, the reusable code, the colliding
    code, and the program's own bootstrap client. */
module Flows {
  import Alphabet
  import opened AuthServer

  /** A registered client that is redirected with a code can exchange that
      code for a bearer token, and the resource accepts the token. */
  lemma AuthorizeExchangeAccess(s: Server, clientID: string, redirectURI: string, code: string, token: string)
    requires clientID in s.clients
    requires IsFresh(code, CodeLength) && IsFresh(token, TokenLength)
    ensures
      var o1 := Authorize(s, clientID, redirectURI, code);
      var o2 := ExchangeToken(o1.server, code, clientID, token);
      var o3 := CheckResource(o2.server, token);
      && o1.response == Redirect(redirectURI + "?code=" + code)
      && o2.response == Granted(token, "Bearer")
      && o3.response == Data("secure data")
      && o2.server.accessTokens[token] == clientID
  {
  }

  /** The redirect location is the redirect URI, then the literal `?code=`,
      then the ten-character code: the code is its last ten characters. */
  lemma RedirectEndsWithCode(s: Server, clientID: string, redirectURI: string, code: string)
    requires clientID in s.clients
    requires IsFresh(code, CodeLength)
    ensures
      var loc := Authorize(s, clientID, redirectURI, code).response.location;
      && |loc| == |redirectURI| + 16
      && loc[..|redirectURI|] == redirectURI
      && loc[|redirectURI|..|redirectURI| + 6] == "?code="
      && loc[|loc| - CodeLength..] == code
  {
  }

  /** A code is not consumed by the exchange: presenting it twice with the
      same client id is granted twice, and both tokens are bound to the client. */
  lemma CodeIsReusable(s: Server, code: string, clientID: string, t1: string, t2: string)
    requires code in s.authCodes && s.authCodes[code] == clientID
    requires IsFresh(t1, TokenLength) && IsFresh(t2, TokenLength)
    ensures
      var o1 := ExchangeToken(s, code, clientID, t1);
      var o2 := ExchangeToken(o1.server, code, clientID, t2);
      && o1.response == Granted(t1, "Bearer")
      && o2.response == Granted(t2, "Bearer")
      && o2.server.authCodes == s.authCodes
      && t1 in o2.server.accessTokens && o2.server.accessTokens[t1] == clientID
      && t2 in o2.server.accessTokens && o2.server.accessTokens[t2] == clientID
  {
  }

  /** A freshly minted code that collides with one already issued overwrites
      it: the code now belongs to the second client, and the first client's
      exchange of it is refused. */
  lemma CollidingCodeIsRebound(s: Server, code: string, first: string, second: string,
                               redirectURI: string, token: string)
    requires code in s.authCodes && s.authCodes[code] == first
    requires second in s.clients && second != first
    requires IsFresh(code, CodeLength) && IsFresh(token, TokenLength)
    ensures
      var o1 := Authorize(s, second, redirectURI, code);
      && o1.server.authCodes[code] == second
      && ExchangeToken(o1.server, code, first, token).response == Failure(InvalidGrant)
      && ExchangeToken(o1.server, code, second, token).response == Granted(token, "Bearer")
  {
  }

  /** The token endpoint does not look at the client secret: the outcome of an
      exchange is the same whatever secrets the registered clients hold. */
  lemma SecretIsIgnored(s: Server, secrets: map<string, string>, code: string, clientID: string, token: string)
    requires secrets.Keys == s.clients.Keys
    requires IsFresh(token, TokenLength)
    ensures
      var o := ExchangeToken(s, code, clientID, token);
      var o' := ExchangeToken(s.(clients := secrets), code, clientID, token);
      o'.response == o.response && o'.server == o.server.(clients := secrets)
  {
  }

  /** The authorization endpoint does not look at the redirect URI beyond
      echoing it: two URIs give the same registries and the same success. */
  lemma RedirectURIIsIgnored(s: Server, clientID: string, uri1: string, uri2: string, code: string)
    requires IsFresh(code, CodeLength)
    ensures
      var o1 := Authorize(s, clientID, uri1, code);
      var o2 := Authorize(s, clientID, uri2, code);
      && o1.server == o2.server
      && o1.response.Failure? == o2.response.Failure?
  {
  }

  /** The program's bootstrap client goes through the whole grant, while an
      unknown client, a made-up token and the token sent with a `Bearer `
      prefix are refused. */
  lemma DemoScenario()
    ensures
      var s0 := DemoServer();
      var o1 := Authorize(s0, "my_client_id", "https://app.example/cb", "a1B2c3D4e5");
      var o2 := ExchangeToken(o1.server, "a1B2c3D4e5", "my_client_id", "Tok3nTok3nTok3nTok3n");
      && o1.response == Redirect("https://app.example/cb?code=a1B2c3D4e5")
      && o2.response == Granted("Tok3nTok3nTok3nTok3n", "Bearer")
      && CheckResource(o2.server, "Tok3nTok3nTok3nTok3n").response == Data("secure data")
      && Authorize(s0, "unknown_client", "https://x", "a1B2c3D4e5").response == Failure(InvalidClient)
      && CheckResource(o2.server, "garbage-token").response == Failure(InvalidToken)
      && CheckResource(o2.server, "Bearer Tok3nTok3nTok3nTok3n").response == Failure(InvalidToken)
      && ErrorName(Authorize(s0, "unknown_client", "https://x", "a1B2c3D4e5").response.error) == "invalid_client"
      && Status(Authorize(s0, "unknown_client", "https://x", "a1B2c3D4e5").response) == 400
      && Status(CheckResource(o2.server, "garbage-token").response) == 401
  {
  }
}
