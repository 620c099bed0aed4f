/** The OpenID Connect authorization-code client (`NativeOidcClient`) as a
    sequential state machine. Its state is the pair of cached endpoints and the
    two configuration flags; the preference store is the delegate's and is
    passed in and out. Network replies, JSON parsing, JWT parsing, SHA-256 and
    randomness are inputs. */
module OidcClient {
  import opened Wrappers
  import opened Bytes
  import opened Preferences
  import Base64Url
  import Pkce
  import Uri
  import Http
  import Config

  // Preference keys for the per-attempt secrets.
  const StateKey := "state"
  const NonceKey := "nonce"
  const VerifierKey := "verifier"

  // Fields of the discovery document (section 3 of OpenID Connect Discovery 1.0).
  const AuthorizationEndpointField := "authorization_endpoint"
  const TokenEndpointField := "token_endpoint"

  // Fields of the token response (section 5.1 of RFC 6749).
  const IdTokenField := "id_token"
  const AccessTokenField := "access_token"

  /** Placeholder text the resource call reports for a response without a body. */
  const NullBodyText := "<null>"

  /** The two constructor flags. */
  datatype Flags = Flags(enablePkce: bool, useHttpsInsteadOfNativeUrl: bool)

  /** The cached endpoints; `None` is a field the discovery document has not set. */
  datatype Endpoints = Endpoints(authUrl: Option<string>, tokenUrl: Option<string>)

  datatype Client = Client(flags: Flags, endpoints: Endpoints)

  /** The exceptions that end an attempt, one per throwing call of the source. */
  datatype Error =
    | MissingEndpoint       // an endpoint field is still null when a URL is built from it
    | MalformedEndpoint     // the endpoint text is not an http(s) URL
    | StateMismatch         // the callback's state differs from the stored state
    | NullFormValue         // a null code or verifier added to the token form
    | TokenTransport        // the token POST fails
    | NullBody              // the token response has no body
    | MalformedJson         // the token response body is not a JSON object
    | MissingIdToken        // the token response has no "id_token"
    | MissingAccessToken    // the token response has no "access_token"
    | TokenParse            // the identity token is not a parseable signed JWT
    | NonceMismatch         // the token's nonce claim differs from the stored nonce
    | InvalidHeaderValue    // the bearer credentials hold a character no header may carry
    | ResourceTransport     // the resource GET fails

  /** A fresh client: nothing resolved yet. The constructor's background
      discovery is `LoadMetadata`, applied by whoever sequences the calls. */
  function NewClient(flags: Flags): Client {
    Client(flags, Endpoints(None, None))
  }

  // ---------------------------------------------------------------------------
  // Redirect URI

  /** The redirect URI the flag selects. */
  function BuildRedirectUri(flags: Flags): (r: string)
    ensures flags.useHttpsInsteadOfNativeUrl <==> r == Config.WebRedirectUrl()
    ensures !flags.useHttpsInsteadOfNativeUrl <==> r == Config.NativeRedirectUrl()
  {
    Config.RedirectUrlsDistinct();
    if flags.useHttpsInsteadOfNativeUrl then Config.WebRedirectUrl() else Config.NativeRedirectUrl()
  }

  // ---------------------------------------------------------------------------
  // Endpoint discovery

  const WellKnownPath := ".well-known/openid-configuration"

  /** The discovery URL OkHttp builds by appending the segments ".well-known"
      and "openid-configuration" to the issuer URL (an empty last segment, left
      by a trailing '/', is replaced rather than kept). It is the issuer without
      its trailing '/', then '/', then the well-known path, as section 4 of
      OpenID Connect Discovery 1.0 prescribes. */
  function WellKnownUrl(issuer: string): (r: string)
    ensures var trimmed := if |issuer| > 0 && issuer[|issuer| - 1] == '/' then issuer[..|issuer| - 1] else issuer;
            r == trimmed + "/" + WellKnownPath
  {
    if |issuer| > 0 && issuer[|issuer| - 1] == '/' then
      assert issuer == issuer[..|issuer| - 1] + "/";
      issuer + WellKnownPath
    else issuer + "/" + WellKnownPath
  }

  /** What the discovery GET delivered: nothing usable (network error, no body,
      not JSON), or the document's fields as `JSONObject.getString` reads them. */
  datatype DiscoveryReply = DiscoveryFailed | DiscoveryDocument(fields: map<string, string>)

  /** The cache after a load, and the URL fetched, if any. */
  datatype MetadataLoad = MetadataLoad(endpoints: Endpoints, fetched: Option<string>)

  predicate IsComplete(e: Endpoints) {
    e.authUrl.Some? && e.tokenUrl.Some?
  }

  /** A token endpoint is only ever set together with an authorization endpoint. */
  predicate IsCoherent(e: Endpoints) {
    e.tokenUrl.Some? ==> e.authUrl.Some?
  }

  function Field(reply: DiscoveryReply, name: string): Option<string> {
    if reply.DiscoveryDocument? && name in reply.fields then Some(reply.fields[name]) else None
  }

  /** `loadMetadata`: skipped once both endpoints are known; otherwise one GET
      of the discovery document, assigning the authorization endpoint and then
      the token endpoint, with any failure swallowed after the assignments made
      so far. */
  function LoadMetadata(e: Endpoints, reply: DiscoveryReply): (r: MetadataLoad)
    ensures IsComplete(e) ==> r == MetadataLoad(e, None)
    ensures !IsComplete(e) ==> r.fetched == Some(WellKnownUrl(Config.AuthorizationServerUrl()))
    ensures Field(reply, AuthorizationEndpointField).None? ==> r.endpoints == e
    ensures r.endpoints.authUrl != e.authUrl ==> r.endpoints.authUrl == Field(reply, AuthorizationEndpointField)
    ensures r.endpoints.tokenUrl != e.tokenUrl ==>
              && r.endpoints.tokenUrl == Field(reply, TokenEndpointField)
              && r.endpoints.authUrl == Field(reply, AuthorizationEndpointField)
    ensures !IsComplete(e) && Field(reply, AuthorizationEndpointField).Some? ==>
              && r.endpoints.authUrl == Field(reply, AuthorizationEndpointField)
              && r.endpoints.tokenUrl == (if Field(reply, TokenEndpointField).Some? then Field(reply, TokenEndpointField) else e.tokenUrl)
    ensures IsCoherent(e) ==> IsCoherent(r.endpoints)
  {
    if IsComplete(e) then MetadataLoad(e, None)
    else
      var fetched := Some(WellKnownUrl(Config.AuthorizationServerUrl()));
      match reply
      case DiscoveryFailed => MetadataLoad(e, fetched)
      case DiscoveryDocument(fields) =>
        if AuthorizationEndpointField !in fields then MetadataLoad(e, fetched)
        else
          var e1 := e.(authUrl := Some(fields[AuthorizationEndpointField]));
          if TokenEndpointField !in fields then MetadataLoad(e1, fetched)
          else MetadataLoad(e1.(tokenUrl := Some(fields[TokenEndpointField])), fetched)
  }

  // ---------------------------------------------------------------------------
  // Authorization request (section 3.1.2.1 of OpenID Connect Core 1.0)

  /** The random octets an attempt draws; the verifier octets are drawn, and
      used, only when PKCE is enabled. */
  datatype Randomness = Randomness(state: Bytes16, nonce: Bytes16, verifier: Bytes32)

  /** The URL handed to the user agent: the authorization endpoint and the
      query parameters added to it, in order, before percent-encoding. */
  datatype AuthorizationRequest = AuthorizationRequest(endpoint: string, query: Uri.Query)

  /** The store after the attempt, and the request or the error that stopped it. */
  datatype AuthorizationStep = AuthorizationStep(store: Store, outcome: Result<AuthorizationRequest, Error>)

  /** The six parameters every request carries, in the order they are added. */
  function CoreParameters(flags: Flags, state: string, nonce: string): Uri.Query {
    [ ("response_type", "code"),
      ("client_id", Config.ClientId()),
      ("scope", "openid"),
      ("state", state),
      ("nonce", nonce),
      ("redirect_uri", BuildRedirectUri(flags)) ]
  }

  /** The two parameters appended with PKCE (section 4.3 of RFC 7636). */
  function PkceParameters(challenge: string): Uri.Query {
    [ ("code_challenge_method", Pkce.S256),
      ("code_challenge", challenge) ]
  }

  /** The text stored under `key`, or the empty text when nothing is. */
  function Stored(s: Store, key: string): string {
    Load(s, key).GetOr("")
  }

  /** `executeAuthorizationRequest`. The state and nonce are stored before the
      authorization endpoint is parsed, so a missing or malformed endpoint
      fails after those two writes; the verifier is stored only on the PKCE
      path, which is reached only when the endpoint parsed. No other key of
      the store changes. */
  function ExecuteAuthorizationRequest(c: Client, store: Store, random: Randomness, sha256: Pkce.Sha256)
    : (r: AuthorizationStep)
    ensures r.outcome.Ok? <==> c.endpoints.authUrl.Some? && Uri.IsHttpUrl(c.endpoints.authUrl.value)
    ensures r.outcome.Ok? ==> r.outcome.value.endpoint == c.endpoints.authUrl.value
    ensures r.outcome.Err? ==> r.outcome.error == (if c.endpoints.authUrl.None? then MissingEndpoint else MalformedEndpoint)
    ensures Load(r.store, StateKey).Some? && Load(r.store, NonceKey).Some?
    ensures forall k | k != StateKey && k != NonceKey && k != VerifierKey :: Load(r.store, k) == Load(store, k)
  {
    var state := Base64Url.Encode(random.state);
    var s1 := Put(store, StateKey, state);
    var nonce := Base64Url.Encode(random.nonce);
    var s2 := Put(s1, NonceKey, nonce);
    match c.endpoints.authUrl
    case None => AuthorizationStep(s2, Err(MissingEndpoint))
    case Some(url) =>
      if !Uri.IsHttpUrl(url) then AuthorizationStep(s2, Err(MalformedEndpoint))
      else
        var query := CoreParameters(c.flags, state, nonce);
        if c.flags.enablePkce then
          var verifier := Pkce.EncodeVerifier(random.verifier);
          var s3 := Put(s2, VerifierKey, verifier);
          var challenge := Pkce.CodeChallenge(sha256, verifier);
          AuthorizationStep(s3, Ok(AuthorizationRequest(url, query + PkceParameters(challenge))))
        else
          AuthorizationStep(s2, Ok(AuthorizationRequest(url, query)))
  }

  /** What an attempt writes: the text of the state octets, then of the nonce
      octets, then, on the PKCE path only, of the verifier octets. */
  lemma AuthorizationWrites(c: Client, store: Store, random: Randomness, sha256: Pkce.Sha256)
    ensures var r := ExecuteAuthorizationRequest(c, store, random, sha256);
            && Load(r.store, StateKey) == Some(Base64Url.Encode(random.state))
            && Load(r.store, NonceKey) == Some(Base64Url.Encode(random.nonce))
            && Load(r.store, VerifierKey)
               == (if c.flags.enablePkce && r.outcome.Ok? then Some(Pkce.EncodeVerifier(random.verifier))
                   else Load(store, VerifierKey))
  {
  }

  /** The stored state and nonce carry the attempt's random octets, whatever
      the outcome; the verifier is replaced, by a text carrying its random
      octets, exactly when PKCE is enabled and the request was built. */
  lemma AuthorizationStoresIssuedValues(c: Client, store: Store, random: Randomness, sha256: Pkce.Sha256)
    ensures var r := ExecuteAuthorizationRequest(c, store, random, sha256);
            && Base64Url.Decode(Stored(r.store, StateKey)) == Some(random.state)
            && Base64Url.Decode(Stored(r.store, NonceKey)) == Some(random.nonce)
            && ((c.flags.enablePkce && r.outcome.Ok?) ==> Base64Url.Decode(Stored(r.store, VerifierKey)) == Some(random.verifier))
            && (!(c.flags.enablePkce && r.outcome.Ok?) ==> Load(r.store, VerifierKey) == Load(store, VerifierKey))
  {
    AuthorizationWrites(c, store, random, sha256);
    Base64Url.DecodeEncode(random.state);
    Base64Url.DecodeEncode(random.nonce);
    Base64Url.DecodeEncode(random.verifier);
  }

  /** A built request carries, in order, response_type=code, the client id,
      scope=openid, the stored state, the stored nonce and the redirect URI,
      followed, exactly when PKCE is enabled, by code_challenge_method=S256 and
      the challenge derived from the stored verifier. */
  lemma AuthorizationRequestParameters(c: Client, store: Store, random: Randomness, sha256: Pkce.Sha256)
    ensures var r := ExecuteAuthorizationRequest(c, store, random, sha256);
            r.outcome.Ok? ==>
              r.outcome.value.query ==
                CoreParameters(c.flags, Stored(r.store, StateKey), Stored(r.store, NonceKey))
                + (if c.flags.enablePkce then PkceParameters(Pkce.CodeChallenge(sha256, Stored(r.store, VerifierKey))) else [])
  {
  }

  // ---------------------------------------------------------------------------
  // Token request (section 4.1.3 of RFC 6749, section 4.5 of RFC 7636)

  /** What the token POST delivered: a transport failure, a response without a
      body, a body that is not a JSON object, or the object's fields as
      `JSONObject.getString` reads them. */
  datatype TokenReply = TokenTransportFailed | TokenNoBody | TokenNotJson | TokenJson(fields: map<string, string>)

  /** The nonce claim of an identity token as `SignedJWT.parse` and
      `getStringClaim("nonce")` read it: a parse error, or the claim, absent
      when the token has none. */
  datatype NonceClaim = Unparseable | NonceClaim(nonce: Option<string>)

  /** JWT parsing, not modelled beyond the nonce claim. */
  type JwtNonce = string -> NonceClaim

  /** What the resource GET delivered. */
  datatype ResourceReply = ResourceTransportFailed | ResourceBody(body: Option<string>)

  /** The network's answers for one handling of a callback. */
  datatype Replies = Replies(discovery: DiscoveryReply, token: TokenReply, resource: ResourceReply)

  /** The form POSTed to the token endpoint, in order, before encoding. */
  datatype TokenRequest = TokenRequest(url: string, form: Uri.Query)

  /** The GET of the protected resource, with its `Authorization` header value. */
  datatype ResourceRequest = ResourceRequest(url: string, authorization: string)

  /** Everything one handling of a callback does: the endpoint cache it leaves,
      the discovery URL it fetched, the requests it sent and how it ended (with
      the text passed to the delegate's `success` on the happy path). */
  datatype Handling = Handling(
    endpoints: Endpoints,
    discovery: Option<string>,
    tokenRequest: Option<TokenRequest>,
    resourceRequest: Option<ResourceRequest>,
    outcome: Result<string, Error>)

  /** The token form: the four parameters of section 4.1.3 of RFC 6749, then
      the verifier when PKCE is enabled. */
  function TokenForm(flags: Flags, code: string, verifier: string): Uri.Query {
    [ ("grant_type", "authorization_code"),
      ("code", code),
      ("redirect_uri", BuildRedirectUri(flags)),
      ("client_id", Config.ClientId()) ]
    + (if flags.enablePkce then [("code_verifier", verifier)] else [])
  }

  /** Reading the token response: a body, a JSON object, an "id_token" and an
      "access_token" are all required; the identity token is the result. */
  function ReadTokenResponse(reply: TokenReply): (r: Result<string, Error>)
    ensures r.Ok? <==> reply.TokenJson? && IdTokenField in reply.fields && AccessTokenField in reply.fields
    ensures r.Ok? ==> r.value == reply.fields[IdTokenField]
    ensures r.Err? && reply.TokenJson? ==> r.error == (if IdTokenField !in reply.fields then MissingIdToken else MissingAccessToken)
  {
    match reply
    case TokenTransportFailed => Err(TokenTransport)
    case TokenNoBody => Err(NullBody)
    case TokenNotJson => Err(MalformedJson)
    case TokenJson(fields) =>
      if IdTokenField !in fields then Err(MissingIdToken)
      else if AccessTokenField !in fields then Err(MissingAccessToken)
      else Ok(fields[IdTokenField])
  }

  /** `validateOpenIdToken`: the token must parse and its nonce claim must
      equal the stored nonce under null-aware equality (rule 11 of section
      3.1.3.7 of OpenID Connect Core 1.0). Nothing else is checked. */
  function ValidateOpenIdToken(idToken: string, store: Store, jwt: JwtNonce): (r: Check<Error>)
    ensures r.Pass? <==> jwt(idToken) == NonceClaim(Load(store, NonceKey))
    ensures r.Fail? ==> (r.error == TokenParse <==> jwt(idToken).Unparseable?)
    ensures r.Fail? ==> r.error in {TokenParse, NonceMismatch}
  {
    match jwt(idToken)
    case Unparseable => Fail(TokenParse)
    case NonceClaim(claim) => if claim != Load(store, NonceKey) then Fail(NonceMismatch) else Pass
  }

  datatype ResourceCall = ResourceCall(request: Option<ResourceRequest>, outcome: Result<string, Error>)

  /** `useOpenIdToken`: a GET of the protected resource presenting the identity
      token as a bearer credential (section 2.1 of RFC 6750); a missing body is
      reported as the placeholder text. */
  function UseOpenIdToken(idToken: string, reply: ResourceReply): (r: ResourceCall)
    ensures r.request.Some? <==> Http.IsHeaderValue(idToken)
    ensures r.request.Some? ==>
              && r.request.value.url == Config.NativeRelyingPartyUrl()
              && Http.BearerToken(r.request.value.authorization) == Some(idToken)
    ensures r.outcome.Ok? <==> r.request.Some? && reply.ResourceBody?
    ensures r.outcome.Ok? ==> r.outcome.value == reply.body.GetOr(NullBodyText)
  {
    var credentials := Http.BearerCredentials(idToken);
    if !Http.IsHeaderValue(credentials) then ResourceCall(None, Err(InvalidHeaderValue))
    else
      var request := Some(ResourceRequest(Config.NativeRelyingPartyUrl(), credentials));
      match reply
      case ResourceTransportFailed => ResourceCall(request, Err(ResourceTransport))
      case ResourceBody(body) => ResourceCall(request, Ok(body.GetOr(NullBodyText)))
  }

  /** `requestOpenIdToken`: re-run discovery if needed, build the form (a null
      code or, with PKCE, a null stored verifier throws), build the request on
      the token endpoint (a null or malformed endpoint throws), POST, read the
      response, check the nonce and call the resource. */
  function RequestOpenIdToken(c: Client, store: Store, code: Option<string>, net: Replies, jwt: JwtNonce)
    : (r: Handling)
    ensures r.discovery == LoadMetadata(c.endpoints, net.discovery).fetched
    ensures r.endpoints == LoadMetadata(c.endpoints, net.discovery).endpoints
    ensures r.tokenRequest.Some? <==>
              && code.Some?
              && (c.flags.enablePkce ==> Load(store, VerifierKey).Some?)
              && r.endpoints.tokenUrl.Some? && Uri.IsHttpUrl(r.endpoints.tokenUrl.value)
    ensures r.tokenRequest.Some? ==>
              && r.tokenRequest.value.url == r.endpoints.tokenUrl.value
              && r.tokenRequest.value.form == TokenForm(c.flags, code.value, Stored(store, VerifierKey))
    ensures r.resourceRequest.Some? ==> r.tokenRequest.Some?
    ensures r.outcome.Ok? ==> r.resourceRequest.Some?
    ensures r.outcome != Err(StateMismatch)
  {
    var m := LoadMetadata(c.endpoints, net.discovery);
    if code.None? then Handling(m.endpoints, m.fetched, None, None, Err(NullFormValue))
    else if c.flags.enablePkce && Load(store, VerifierKey).None? then
      Handling(m.endpoints, m.fetched, None, None, Err(NullFormValue))
    else
      var form := TokenForm(c.flags, code.value, Stored(store, VerifierKey));
      match m.endpoints.tokenUrl
      case None => Handling(m.endpoints, m.fetched, None, None, Err(MissingEndpoint))
      case Some(url) =>
        if !Uri.IsHttpUrl(url) then Handling(m.endpoints, m.fetched, None, None, Err(MalformedEndpoint))
        else
          var sent := Some(TokenRequest(url, form));
          match ReadTokenResponse(net.token)
          case Err(e) => Handling(m.endpoints, m.fetched, sent, None, Err(e))
          case Ok(idToken) =>
            match ValidateOpenIdToken(idToken, store, jwt)
            case Fail(e) => Handling(m.endpoints, m.fetched, sent, None, Err(e))
            case Pass =>
              var call := UseOpenIdToken(idToken, net.resource);
              Handling(m.endpoints, m.fetched, sent, call.request, call.outcome)
  }

  // ---------------------------------------------------------------------------
  // Callback (section 4.1.2 of RFC 6749; the state check of its section 10.12)

  /** `verifyAuthenticationResponse`: the callback's state must equal the
      stored state under null-aware equality (`Objects.equals`), otherwise the
      attempt stops before any network access. The store is only read. */
  function VerifyAuthenticationResponse(c: Client, store: Store, state: Option<string>, code: Option<string>,
                                        net: Replies, jwt: JwtNonce): (r: Handling)
    ensures state != Load(store, StateKey) ==> r == Handling(c.endpoints, None, None, None, Err(StateMismatch))
    ensures state == Load(store, StateKey) ==> r.outcome != Err(StateMismatch)
    ensures r.tokenRequest.Some? ==> state == Load(store, StateKey)
  {
    if state != Load(store, StateKey) then Handling(c.endpoints, None, None, None, Err(StateMismatch))
    else RequestOpenIdToken(c, store, code, net, jwt)
  }

  /** `handleAuthenticationResponse`: the first "state" and "code" query
      parameters of the callback URI, absent when missing. */
  function HandleAuthenticationResponse(c: Client, store: Store, callback: Uri.Query, net: Replies, jwt: JwtNonce)
    : (r: Handling)
    ensures r.tokenRequest.Some? ==> Uri.QueryParameter(callback, "state") == Load(store, StateKey)
    ensures r.tokenRequest.Some? ==>
              && Uri.QueryParameter(callback, "code").Some?
              && (c.flags.enablePkce ==> Load(store, VerifierKey).Some?)
              && r.tokenRequest.value.form == TokenForm(c.flags, Uri.QueryParameter(callback, "code").value, Stored(store, VerifierKey))
  {
    VerifyAuthenticationResponse(c, store, Uri.QueryParameter(callback, "state"),
                                 Uri.QueryParameter(callback, "code"), net, jwt)
  }
}
