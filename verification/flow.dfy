/** Properties that connect the stages of one authorization attempt: what the
    authorization request leaves in the store is what the callback, the token
    request and the nonce check later read. */
module Flow {
  import opened Wrappers
  import opened Bytes
  import opened Preferences
  import opened OidcClient
  import Base64Url
  import Pkce
  import Uri
  import Http
  import Config

  /** The parameters an authentication request of section 3.1.2.1 of OpenID
      Connect Core 1.0 must carry for the authorization code flow. */
  predicate IsCodeFlowRequest(q: Uri.Query) {
    && Uri.QueryParameter(q, "response_type") == Some("code")
    && Uri.QueryParameter(q, "scope") == Some("openid")
    && Uri.QueryParameter(q, "client_id").Some?
    && Uri.QueryParameter(q, "redirect_uri").Some?
  }

  /** A code verifier and a code challenge, both present, the verifier well
      formed, that the server's S256 check accepts together. */
  predicate ChallengeAccepted(sha256: Pkce.Sha256, verifier: Option<string>, challenge: Option<string>) {
    && verifier.Some? && challenge.Some?
    && Pkce.IsCodeVerifier(verifier.value)
    && Pkce.S256Accepts(sha256, verifier.value, challenge.value)
  }

  /** The query of a built request, with or without the PKCE parameters. */
  function BuiltQuery(flags: Flags, state: string, nonce: string, challenge: string): Uri.Query {
    CoreParameters(flags, state, nonce) + (if flags.enablePkce then PkceParameters(challenge) else [])
  }

  /** A lookup of a core parameter is not disturbed by the PKCE parameters. */
  lemma CoreLookupSurvivesPkce(flags: Flags, state: string, nonce: string, challenge: string, name: string)
    requires Uri.QueryParameter(CoreParameters(flags, state, nonce), name).Some?
    ensures Uri.QueryParameter(BuiltQuery(flags, state, nonce, challenge), name)
         == Uri.QueryParameter(CoreParameters(flags, state, nonce), name)
  {
    var core := CoreParameters(flags, state, nonce);
    if flags.enablePkce {
      Uri.QueryParameterPrefix(core, PkceParameters(challenge), name);
    } else {
      assert BuiltQuery(flags, state, nonce, challenge) == core;
    }
  }

  /** The fixed parameters of the code flow are present with their values. */
  lemma FixedParameterLookups(flags: Flags, state: string, nonce: string, challenge: string)
    ensures IsCodeFlowRequest(BuiltQuery(flags, state, nonce, challenge))
    ensures Uri.QueryParameter(BuiltQuery(flags, state, nonce, challenge), "client_id") == Some(Config.ClientId())
    ensures Uri.QueryParameter(BuiltQuery(flags, state, nonce, challenge), "redirect_uri") == Some(BuildRedirectUri(flags))
  {
    var core := CoreParameters(flags, state, nonce);
    Uri.QueryParameterAt(core, 0, "response_type");
    Uri.QueryParameterAt(core, 1, "client_id");
    Uri.QueryParameterAt(core, 2, "scope");
    Uri.QueryParameterAt(core, 5, "redirect_uri");
    CoreLookupSurvivesPkce(flags, state, nonce, challenge, "response_type");
    CoreLookupSurvivesPkce(flags, state, nonce, challenge, "client_id");
    CoreLookupSurvivesPkce(flags, state, nonce, challenge, "scope");
    CoreLookupSurvivesPkce(flags, state, nonce, challenge, "redirect_uri");
  }

  /** The state and nonce parameters carry the given values. */
  lemma IssuedParameterLookups(flags: Flags, state: string, nonce: string, challenge: string)
    ensures Uri.QueryParameter(BuiltQuery(flags, state, nonce, challenge), "state") == Some(state)
    ensures Uri.QueryParameter(BuiltQuery(flags, state, nonce, challenge), "nonce") == Some(nonce)
  {
    var core := CoreParameters(flags, state, nonce);
    Uri.QueryParameterAt(core, 3, "state");
    Uri.QueryParameterAt(core, 4, "nonce");
    CoreLookupSurvivesPkce(flags, state, nonce, challenge, "state");
    CoreLookupSurvivesPkce(flags, state, nonce, challenge, "nonce");
  }

  /** The challenge parameters are present, with the S256 method, exactly with PKCE. */
  lemma ChallengeParameterLookups(flags: Flags, state: string, nonce: string, challenge: string)
    ensures Uri.QueryParameter(BuiltQuery(flags, state, nonce, challenge), "code_challenge")
         == (if flags.enablePkce then Some(challenge) else None)
    ensures Uri.QueryParameter(BuiltQuery(flags, state, nonce, challenge), "code_challenge_method")
         == (if flags.enablePkce then Some(Pkce.S256) else None)
  {
    var core := CoreParameters(flags, state, nonce);
    assert forall i | 0 <= i < |core| :: |core[i].0| < |"code_challenge"| < |"code_challenge_method"|;
    if flags.enablePkce {
      var more := PkceParameters(challenge);
      Uri.QueryParameterSkip(core, more, "code_challenge");
      Uri.QueryParameterSkip(core, more, "code_challenge_method");
      Uri.QueryParameterAt(more, 0, "code_challenge_method");
      Uri.QueryParameterAt(more, 1, "code_challenge");
    } else {
      assert BuiltQuery(flags, state, nonce, challenge) == core;
    }
  }

  /** The query of a built request, in terms of what the attempt stored. */
  lemma BuiltFromStore(c: Client, store: Store, random: Randomness, sha256: Pkce.Sha256)
    requires ExecuteAuthorizationRequest(c, store, random, sha256).outcome.Ok?
    ensures var r := ExecuteAuthorizationRequest(c, store, random, sha256);
            r.outcome.value.query == BuiltQuery(c.flags, Stored(r.store, StateKey), Stored(r.store, NonceKey),
                                                Pkce.CodeChallenge(sha256, Stored(r.store, VerifierKey)))
  {
    AuthorizationRequestParameters(c, store, random, sha256);
  }

  /** A built request is an OpenID Connect code-flow request whose state and
      nonce are exactly the values left in the store. */
  lemma RequestMatchesStore(c: Client, store: Store, random: Randomness, sha256: Pkce.Sha256)
    requires ExecuteAuthorizationRequest(c, store, random, sha256).outcome.Ok?
    ensures var r := ExecuteAuthorizationRequest(c, store, random, sha256);
            var q := r.outcome.value.query;
            && IsCodeFlowRequest(q)
            && Uri.QueryParameter(q, "state") == Load(r.store, StateKey)
            && Uri.QueryParameter(q, "nonce") == Load(r.store, NonceKey)
            && Uri.QueryParameter(q, "redirect_uri") == Some(BuildRedirectUri(c.flags))
  {
    var r := ExecuteAuthorizationRequest(c, store, random, sha256);
    var state, nonce := Stored(r.store, StateKey), Stored(r.store, NonceKey);
    var challenge := Pkce.CodeChallenge(sha256, Stored(r.store, VerifierKey));
    BuiltFromStore(c, store, random, sha256);
    FixedParameterLookups(c.flags, state, nonce, challenge);
    IssuedParameterLookups(c.flags, state, nonce, challenge);
  }

  /** A built request carries a code challenge exactly when PKCE is enabled,
      and then the authorization server's S256 check accepts that challenge for
      the stored verifier. */
  lemma RequestChallengeMatchesVerifier(c: Client, store: Store, random: Randomness, sha256: Pkce.Sha256)
    requires ExecuteAuthorizationRequest(c, store, random, sha256).outcome.Ok?
    ensures var r := ExecuteAuthorizationRequest(c, store, random, sha256);
            var q := r.outcome.value.query;
            && (Uri.QueryParameter(q, "code_challenge").Some? <==> c.flags.enablePkce)
            && (c.flags.enablePkce ==>
                  && Uri.QueryParameter(q, "code_challenge_method") == Some(Pkce.S256)
                  && ChallengeAccepted(sha256, Load(r.store, VerifierKey), Uri.QueryParameter(q, "code_challenge")))
  {
    var r := ExecuteAuthorizationRequest(c, store, random, sha256);
    var verifier := Stored(r.store, VerifierKey);
    BuiltFromStore(c, store, random, sha256);
    ChallengeParameterLookups(c.flags, Stored(r.store, StateKey), Stored(r.store, NonceKey),
                              Pkce.CodeChallenge(sha256, verifier));
    if c.flags.enablePkce {
      IssuedValueSizes(c, store, random, sha256);
      AuthorizationWrites(c, store, random, sha256);
      assert Base64Url.IsBase64UrlText(verifier);
      Pkce.Base64UrlTextIsAscii(verifier);
      Pkce.ChallengeAcceptedByServer(sha256, verifier);
    }
  }

  /** The issued values have the sizes of their random octets: 22 characters
      for the 16-octet state and nonce, 43 for the 32-octet verifier, which is
      a well-formed code verifier of section 4.1 of RFC 7636. */
  lemma IssuedValueSizes(c: Client, store: Store, random: Randomness, sha256: Pkce.Sha256)
    ensures var r := ExecuteAuthorizationRequest(c, store, random, sha256);
            && |Stored(r.store, StateKey)| == 22 && Base64Url.IsBase64UrlText(Stored(r.store, StateKey))
            && |Stored(r.store, NonceKey)| == 22 && Base64Url.IsBase64UrlText(Stored(r.store, NonceKey))
            && ((c.flags.enablePkce && r.outcome.Ok?) ==> Pkce.IsCodeVerifier(Stored(r.store, VerifierKey)))
  {
    AuthorizationWrites(c, store, random, sha256);
    EncodedSize(random.state);
    EncodedSize(random.nonce);
    Pkce.EncodedVerifierIsCodeVerifier(random.verifier);
  }

  lemma EncodedSize(b: Bytes16)
    ensures |Base64Url.Encode(b)| == 22
  {
  }

  /** The state check is the CSRF defence of section 10.12 of RFC 6749: after
      an authorization request, a callback is turned away before any network
      access exactly when its state differs from the one the request carried. */
  lemma CallbackStateCheck(c: Client, store: Store, random: Randomness, sha256: Pkce.Sha256,
                           c': Client, callback: Uri.Query, net: Replies, jwt: JwtNonce)
    requires ExecuteAuthorizationRequest(c, store, random, sha256).outcome.Ok?
    ensures var a := ExecuteAuthorizationRequest(c, store, random, sha256);
            var h := HandleAuthenticationResponse(c', a.store, callback, net, jwt);
            var sent := Uri.QueryParameter(a.outcome.value.query, "state");
            && (Uri.QueryParameter(callback, "state") != sent <==> h.outcome == Err(StateMismatch))
            && (Uri.QueryParameter(callback, "state") != sent ==>
                  h.discovery.None? && h.tokenRequest.None? && h.resourceRequest.None? && h.endpoints == c'.endpoints)
  {
    RequestMatchesStore(c, store, random, sha256);
  }

  /** Lookups in the token form: the four parameters of the code grant. */
  lemma TokenFormLookups(flags: Flags, code: string, verifier: string)
    ensures Uri.QueryParameter(TokenForm(flags, code, verifier), "grant_type") == Some("authorization_code")
    ensures Uri.QueryParameter(TokenForm(flags, code, verifier), "code") == Some(code)
    ensures Uri.QueryParameter(TokenForm(flags, code, verifier), "redirect_uri") == Some(BuildRedirectUri(flags))
    ensures Uri.QueryParameter(TokenForm(flags, code, verifier), "client_id") == Some(Config.ClientId())
  {
    var form := TokenForm(flags, code, verifier);
    Uri.QueryParameterAt(form, 0, "grant_type");
    Uri.QueryParameterAt(form, 1, "code");
    Uri.QueryParameterAt(form, 2, "redirect_uri");
    Uri.QueryParameterAt(form, 3, "client_id");
  }

  /** The token form carries a code verifier exactly when PKCE is enabled. */
  lemma TokenFormVerifierLookup(flags: Flags, code: string, verifier: string)
    ensures Uri.QueryParameter(TokenForm(flags, code, verifier), "code_verifier")
         == (if flags.enablePkce then Some(verifier) else None)
  {
    var form := TokenForm(flags, code, verifier);
    assert forall i | 0 <= i < 4 :: |form[i].0| < |"code_verifier"|;
    if flags.enablePkce {
      Uri.QueryParameterAt(form, 4, "code_verifier");
    }
  }

  /** The token request repeats the redirect URI of the authorization request
      (section 4.1.3 of RFC 6749), for any two clients with the same flags:
      once the callback's state matches, a code is present, the verifier is
      stored when PKCE needs it and the token endpoint is a valid URL, the
      token request is sent and its redirect_uri is the one the authorization
      request carried. */
  lemma RedirectUriAgrees(flags: Flags, e: Endpoints, store: Store, random: Randomness, sha256: Pkce.Sha256,
                          e': Endpoints, store': Store, callback: Uri.Query, net: Replies, jwt: JwtNonce)
    requires e.authUrl.Some? && Uri.IsHttpUrl(e.authUrl.value)
    requires Uri.QueryParameter(callback, "state") == Load(store', StateKey)
    requires Uri.QueryParameter(callback, "code").Some?
    requires flags.enablePkce ==> Load(store', VerifierKey).Some?
    requires var t := LoadMetadata(e', net.discovery).endpoints.tokenUrl; t.Some? && Uri.IsHttpUrl(t.value)
    ensures var h := HandleAuthenticationResponse(Client(flags, e'), store', callback, net, jwt);
            && h.tokenRequest.Some?
            && Uri.QueryParameter(h.tokenRequest.value.form, "redirect_uri")
               == Uri.QueryParameter(ExecuteAuthorizationRequest(Client(flags, e), store, random, sha256).outcome.value.query, "redirect_uri")
  {
    RequestMatchesStore(Client(flags, e), store, random, sha256);
    TokenFormLookups(flags, Uri.QueryParameter(callback, "code").value, Stored(store', VerifierKey));
  }

  /** PKCE binds the code to this client: with PKCE the token request carries
      as code_verifier the stored verifier, for which the server's S256 check
      accepts the challenge the authorization request sent; without PKCE it
      carries no verifier. */
  lemma VerifierMatchesChallenge(c: Client, store: Store, random: Randomness, sha256: Pkce.Sha256,
                                 c': Client, callback: Uri.Query, net: Replies, jwt: JwtNonce)
    requires c'.flags == c.flags
    requires ExecuteAuthorizationRequest(c, store, random, sha256).outcome.Ok?
    requires HandleAuthenticationResponse(c', ExecuteAuthorizationRequest(c, store, random, sha256).store,
                                          callback, net, jwt).tokenRequest.Some?
    ensures var a := ExecuteAuthorizationRequest(c, store, random, sha256);
            var form := HandleAuthenticationResponse(c', a.store, callback, net, jwt).tokenRequest.value.form;
            && (Uri.QueryParameter(form, "code_verifier").Some? <==> c.flags.enablePkce)
            && (c.flags.enablePkce ==>
                  && Uri.QueryParameter(form, "code_verifier") == Load(a.store, VerifierKey)
                  && ChallengeAccepted(sha256, Uri.QueryParameter(form, "code_verifier"),
                                       Uri.QueryParameter(a.outcome.value.query, "code_challenge")))
  {
    var a := ExecuteAuthorizationRequest(c, store, random, sha256);
    RequestChallengeMatchesVerifier(c, store, random, sha256);
    TokenFormVerifierLookup(c.flags, Uri.QueryParameter(callback, "code").value, Stored(a.store, VerifierKey));
  }

  /** The delegate's `success` is reached, by a GET carrying the identity token
      as bearer credentials, exactly when the state matches, the form could be
      built and sent, the response has a body that is a JSON object with both
      "id_token" and "access_token", and the token's nonce claim equals the
      stored nonce under null-aware equality. */
  lemma SuccessRequiresEveryCheck(c: Client, store: Store, callback: Uri.Query, net: Replies, jwt: JwtNonce)
    ensures var h := HandleAuthenticationResponse(c, store, callback, net, jwt);
            h.outcome.Ok? <==>
              && Uri.QueryParameter(callback, "state") == Load(store, StateKey)
              && h.tokenRequest.Some?
              && net.token.TokenJson?
              && IdTokenField in net.token.fields && AccessTokenField in net.token.fields
              && jwt(net.token.fields[IdTokenField]) == NonceClaim(Load(store, NonceKey))
              && Http.IsHeaderValue(net.token.fields[IdTokenField])
              && net.resource.ResourceBody?
    ensures var h := HandleAuthenticationResponse(c, store, callback, net, jwt);
            h.outcome.Ok? ==>
              && h.resourceRequest == Some(ResourceRequest(Config.NativeRelyingPartyUrl(),
                                                           Http.BearerCredentials(net.token.fields[IdTokenField])))
              && h.outcome.value == net.resource.body.GetOr(NullBodyText)
  {
  }

  /** A callback without a code never reaches the token endpoint: building
      the form fails first. Discovery still runs before that, exactly when
      the state check passed and the endpoint cache is incomplete. */
  lemma MissingCodeSendsNoTokenRequest(c: Client, store: Store, callback: Uri.Query, net: Replies, jwt: JwtNonce)
    requires forall i | 0 <= i < |callback| :: callback[i].0 != "code"
    ensures var h := HandleAuthenticationResponse(c, store, callback, net, jwt);
            && h.tokenRequest.None? && h.resourceRequest.None?
            && h.outcome == (if Uri.QueryParameter(callback, "state") == Load(store, StateKey) then Err(NullFormValue)
                             else Err(StateMismatch))
            && (h.discovery.Some? <==> Uri.QueryParameter(callback, "state") == Load(store, StateKey) && !IsComplete(c.endpoints))
  {
  }

  /** The state check compares with `Objects.equals`: when the store holds no
      state and the callback carries none, the check passes and the attempt
      goes on to the token request. */
  lemma AbsentStatesCompareEqual(c: Client, store: Store, callback: Uri.Query, net: Replies, jwt: JwtNonce)
    requires StateKey !in store
    requires forall i | 0 <= i < |callback| :: callback[i].0 != "state"
    ensures HandleAuthenticationResponse(c, store, callback, net, jwt).outcome != Err(StateMismatch)
  {
  }

  /** Likewise for the nonce: a token without a nonce claim passes the nonce
      check when the store holds no nonce. */
  lemma AbsentNoncesCompareEqual(idToken: string, store: Store, jwt: JwtNonce)
    requires NonceKey !in store
    requires jwt(idToken) == NonceClaim(None)
    ensures ValidateOpenIdToken(idToken, store, jwt) == Pass
  {
  }

  /** Once a load has set both endpoints, every later load is a no-op that
      fetches nothing, whatever the network would answer. */
  lemma MetadataCacheIsIdempotent(e: Endpoints, first: DiscoveryReply, later: DiscoveryReply)
    requires Field(first, AuthorizationEndpointField).Some? && Field(first, TokenEndpointField).Some?
    ensures var loaded := LoadMetadata(e, first).endpoints;
            && IsComplete(loaded)
            && LoadMetadata(loaded, later) == MetadataLoad(loaded, None)
  {
  }

  /** A callback echoing the stored state, answered by a token response with
      both tokens whose identity token carries the stored nonce, succeeds: it
      sends the code grant to the cached token endpoint without a new
      discovery, and presents the identity token to the resource. */
  lemma CallbackSucceeds(c: Client, store: Store, state: string, code: string,
                         idToken: string, accessToken: string, body: string, jwt: JwtNonce)
    requires Load(store, StateKey) == Some(state)
    requires IsComplete(c.endpoints) && Uri.IsHttpUrl(c.endpoints.tokenUrl.value)
    requires c.flags.enablePkce ==> Load(store, VerifierKey).Some?
    requires jwt(idToken) == NonceClaim(Load(store, NonceKey))
    requires Http.IsHeaderValue(idToken)
    ensures var net := Replies(DiscoveryFailed, TokenJson(map[IdTokenField := idToken, AccessTokenField := accessToken]),
                               ResourceBody(Some(body)));
            var h := HandleAuthenticationResponse(c, store, [("state", state), ("code", code)], net, jwt);
            && h.outcome == Ok(body)
            && h.discovery.None?
            && h.tokenRequest == Some(TokenRequest(c.endpoints.tokenUrl.value, TokenForm(c.flags, code, Stored(store, VerifierKey))))
            && h.resourceRequest == Some(ResourceRequest(Config.NativeRelyingPartyUrl(), Http.BearerCredentials(idToken)))
  {
    var callback := [("state", state), ("code", code)];
    CallbackLookups(state, code);
    var net := Replies(DiscoveryFailed, TokenJson(map[IdTokenField := idToken, AccessTokenField := accessToken]),
                       ResourceBody(Some(body)));
    SuccessRequiresEveryCheck(c, store, callback, net, jwt);
  }

  /** The end-to-end scenario: with PKCE, an authorization request, then a
      callback echoing its state with a code, then a token response whose
      identity token carries the issued nonce, ends in `success` after a
      token request with the code and the stored verifier and a resource GET
      presenting the token. */
  lemma EndToEnd(flags: Flags, e: Endpoints, store: Store, random: Randomness, sha256: Pkce.Sha256,
                 code: string, idToken: string, accessToken: string, body: string, jwt: JwtNonce)
    requires flags.enablePkce
    requires IsComplete(e) && Uri.IsHttpUrl(e.authUrl.value) && Uri.IsHttpUrl(e.tokenUrl.value)
    requires jwt(idToken) == NonceClaim(Some(Base64Url.Encode(random.nonce)))
    requires Http.IsHeaderValue(idToken)
    ensures var a := ExecuteAuthorizationRequest(Client(flags, e), store, random, sha256);
            var state := Base64Url.Encode(random.state);
            var net := Replies(DiscoveryFailed, TokenJson(map[IdTokenField := idToken, AccessTokenField := accessToken]),
                               ResourceBody(Some(body)));
            var h := HandleAuthenticationResponse(Client(flags, e), a.store, [("state", state), ("code", code)], net, jwt);
            && a.outcome.Ok?
            && Uri.QueryParameter(a.outcome.value.query, "state") == Some(state)
            && h.outcome == Ok(body)
            && h.discovery.None?
            && h.tokenRequest.Some?
            && h.tokenRequest.value.url == e.tokenUrl.value
            && Uri.QueryParameter(h.tokenRequest.value.form, "code") == Some(code)
            && ChallengeAccepted(sha256, Uri.QueryParameter(h.tokenRequest.value.form, "code_verifier"),
                                 Uri.QueryParameter(a.outcome.value.query, "code_challenge"))
            && h.resourceRequest == Some(ResourceRequest(Config.NativeRelyingPartyUrl(), Http.BearerCredentials(idToken)))
  {
    var c := Client(flags, e);
    var a := ExecuteAuthorizationRequest(c, store, random, sha256);
    var state := Base64Url.Encode(random.state);
    AuthorizationWrites(c, store, random, sha256);
    RequestMatchesStore(c, store, random, sha256);
    RequestChallengeMatchesVerifier(c, store, random, sha256);
    CallbackSucceeds(c, a.store, state, code, idToken, accessToken, body, jwt);
    TokenFormLookups(flags, code, Stored(a.store, VerifierKey));
    TokenFormVerifierLookup(flags, code, Stored(a.store, VerifierKey));
  }

  lemma CallbackLookups(state: string, code: string)
    ensures Uri.QueryParameter([("state", state), ("code", code)], "state") == Some(state)
    ensures Uri.QueryParameter([("state", state), ("code", code)], "code") == Some(code)
  {
    Uri.QueryParameterAt([("state", state), ("code", code)], 0, "state");
    Uri.QueryParameterAt([("state", state), ("code", code)], 1, "code");
  }
}
