# OpenID Connect native client, modelled in Dafny

This project models the OpenID Connect client of the eID service app:
`NativeOidcClient` and its configuration `NativeOidcConfig`. The client implements
the authorization-code flow of OpenID Connect Core 1.0, optionally with PKCE
(RFC 7636) using the S256 method. It does the following:

- it discovers the authorization and token endpoints from the issuer's
  `.well-known/openid-configuration` document and caches them;
- it draws a random `state`, `nonce` and (with PKCE) code verifier, stores
  them in the delegate's preferences, and builds the authorization URL;
- on the callback it checks `state` and POSTs the code grant to the token
  endpoint;
- it checks the identity token's `nonce` claim against the stored nonce;
- it presents the identity token as a bearer credential to the relying
  party's resource.

The client is modelled as a sequential state machine over immutable values:

- `Client` holds the two flags and the endpoint cache.
- The preference store is a `map<string, string>` that each operation takes
  and returns.
- Each exception the modelled calls throw to end an attempt is a case of
  `OidcClient.Error`. The callback arrives as its decoded query, so the
  exception an opaque callback URI raises is outside the model (see
  "## Left out").
- Network replies (`DiscoveryReply`, `TokenReply`, `ResourceReply`), JSON
  field maps, JWT nonce parsing (`JwtNonce`), SHA-256 (`Pkce.Sha256`) and the
  random octets (`Randomness`) are inputs.
- The outgoing requests (the authorization URL, the token form and the
  resource GET) are part of the result, so properties can speak about what
  was sent.

Modules:

- `Wrappers`: `Option`, `Result` and `Check`.
- `Bytes`: octets and fixed-length octet sequences.
- `Base64Url`: unpadded URL-safe Base64 (section 5 of RFC 4648), with both
  round trips.
- `Utf8`: UTF-8 encoding of text.
- `Uri`: URI schemes, first-match query-parameter lookup and the http(s)
  URL test, which reads the authority after any run of slashes as OkHttp does.
- `Http`: header-value validity and bearer credentials.
- `Preferences`: the delegate's key-value store.
- `Config`: the `NativeOidcConfig` constants.
- `Pkce`: the code verifier, the challenge and the server's S256 check.
- `OidcClient`: the client's operations.
- `Flow`: properties that connect the stages of an attempt.

Where the behaviour of the code is surprising, the model follows the code:

- `state` and `nonce` are compared with `Objects.equals`. An absent callback
  state therefore matches an absent stored state, and a token without a
  nonce claim passes when no nonce is stored (`Flow.AbsentStatesCompareEqual`,
  `Flow.AbsentNoncesCompareEqual`).
- A callback without a `code` sends no token request. The null value makes
  `FormBody.Builder.add` throw while the token form is being built. The same
  holds for a missing stored verifier when PKCE is enabled. The discovery GET
  may still run first, because `loadMetadata` is called before the form is
  built (`Flow.MissingCodeSendsNoTokenRequest`).
- The token response must carry `access_token` as well as `id_token`.
  `getString` throws when `access_token` is missing, even though the value
  is never used.
- `state` and `nonce` are stored before the authorization endpoint is
  parsed. A missing or malformed endpoint therefore fails after both writes.

## Model

| member | source | states |
|---|---|---|
| Base64Url.Encode | app/src/main/java/at/gv/egiz/serviceapp/NativeOidcClient.java:219-221 | the text uses only the URL-safe alphabet, carries no padding and has ceil(4n/3) characters for n octets (never 1 more than a multiple of 4) |
| Base64Url.DecodeEncode | app/src/main/java/at/gv/egiz/serviceapp/NativeOidcClient.java:219-221 | decoding the encoding of any octets gives those octets back: the encoding loses nothing |
| Base64Url.EncodeDecode | app/src/main/java/at/gv/egiz/serviceapp/NativeOidcClient.java:219-221 | every text the strict decoder accepts is the encoding of what it decodes to, so the encoding of n octets is the only text that decodes to them |
| Base64Url.EncodeInjective | app/src/main/java/at/gv/egiz/serviceapp/NativeOidcClient.java:219-221 | distinct octet sequences have distinct encodings |
| Utf8.EncodeChar | app/src/main/java/at/gv/egiz/serviceapp/NativeOidcClient.java:126 | a character takes 1 to 4 octets; it takes exactly one octet iff its code point is below 0x80, and that octet is the code point |
| Utf8.EncodeAscii | app/src/main/java/at/gv/egiz/serviceapp/NativeOidcClient.java:126 | the UTF-8 octets of ASCII text are its character codes, one octet per character |
| Uri.SchemeOf | app/src/main/java/at/gv/egiz/serviceapp/NativeOidcConfig.java:29-31 | a URI has a scheme iff it contains ':'; the scheme is the colon-free text before the first ':' |
| Uri.QueryParameter | app/src/main/java/at/gv/egiz/serviceapp/NativeOidcClient.java:139-140 | the lookup is absent iff no parameter has the name; otherwise it is the value of the first parameter with that name |
| Uri.QueryParameterAt | app/src/main/java/at/gv/egiz/serviceapp/NativeOidcClient.java:139-140 | the lookup returns the value of the first parameter with the name |
| Uri.SkipSlashesSplits | app/src/main/java/at/gv/egiz/serviceapp/NativeOidcClient.java:115 | the authority of an http(s) URL starts after the whole run of slashes and backslashes that follows the scheme, and only that run is skipped |
| Http.BearerCredentials | app/src/main/java/at/gv/egiz/serviceapp/NativeOidcClient.java:209-210 | the token can be read back from the header value after "Bearer ", and the header value is valid iff the token is |
| Preferences.Put | app/src/main/java/at/gv/egiz/serviceapp/OidcNativeFragment.java:117-127 | after a store, the key reads back the stored value and every other key reads as before |
| Config.NativeUrlScheme | app/src/main/java/at/gv/egiz/serviceapp/NativeOidcConfig.java:9-11 | the registered scheme is non-empty and contains no ':' |
| Config.NativeRedirectUrl | app/src/main/java/at/gv/egiz/serviceapp/NativeOidcConfig.java:29-31 | the native redirect URL has the registered scheme, followed by the path "/oauth2redirect" |
| Config.WebRedirectUrl | app/src/main/java/at/gv/egiz/serviceapp/NativeOidcConfig.java:17-19 | the web redirect URL is the web relying party's URL followed by "login/oauth2/code/eid" |
| Config.WebManualLoginUrl | app/src/main/java/at/gv/egiz/serviceapp/NativeOidcConfig.java:41-43 | the manual-login URL is the web relying party's URL followed by "manuallogin" |
| Config.RedirectUrlsDistinct | app/src/main/java/at/gv/egiz/serviceapp/NativeOidcConfig.java:17-31 | the native and web redirect URLs differ, so the flag decides which one the server sees |
| Config.WebRedirectIsHttps | app/src/main/java/at/gv/egiz/serviceapp/NativeOidcConfig.java:17-19 | the web redirect URL has the scheme "https" |
| Config.ResourceUrlIsHttp | app/src/main/java/at/gv/egiz/serviceapp/NativeOidcConfig.java:33-35 | the protected-resource URL is one the HTTP client accepts |
| Pkce.CodeChallenge | app/src/main/java/at/gv/egiz/serviceapp/NativeOidcClient.java:126-127 | the challenge is 43 URL-safe characters that decode to the SHA-256 digest of the verifier's UTF-8 octets |
| Pkce.EncodedVerifierIsCodeVerifier | app/src/main/java/at/gv/egiz/serviceapp/NativeOidcClient.java:123-124 | the encoding of 32 random octets is a 43-character code verifier of section 4.1 of RFC 7636 that decodes back to those octets |
| Pkce.ChallengeAcceptedByServer | app/src/main/java/at/gv/egiz/serviceapp/NativeOidcClient.java:123-129 | for an ASCII verifier, the S256 check of section 4.6 of RFC 7636 (the challenge equals the encoded digest of the verifier's ASCII octets) accepts the client's challenge |
| OidcClient.BuildRedirectUri | app/src/main/java/at/gv/egiz/serviceapp/NativeOidcClient.java:186-192 | the redirect URI is the web one iff the HTTPS flag is set, and the native one iff it is not |
| OidcClient.WellKnownUrl | app/src/main/java/at/gv/egiz/serviceapp/NativeOidcClient.java:95-96 | the discovery URL is the issuer without its trailing '/', then '/', then ".well-known/openid-configuration" |
| OidcClient.LoadMetadata | app/src/main/java/at/gv/egiz/serviceapp/NativeOidcClient.java:90-107 | with both endpoints cached nothing is fetched or changed; otherwise the discovery URL is fetched; an endpoint changes only to the document's value; a document without an authorization endpoint changes nothing; a token endpoint is never set without an authorization endpoint |
| OidcClient.ExecuteAuthorizationRequest | app/src/main/java/at/gv/egiz/serviceapp/NativeOidcClient.java:110-134 | a request is built iff the authorization endpoint is cached and is an http(s) URL; otherwise the error names the cause; the request goes to that endpoint; state and nonce are always stored; no key other than state, nonce and verifier changes |
| OidcClient.AuthorizationWrites | app/src/main/java/at/gv/egiz/serviceapp/NativeOidcClient.java:111-125 | state and nonce are stored as the encodings of their random octets; the verifier is replaced, by the encoding of its octets, exactly when PKCE is enabled and the request was built |
| OidcClient.AuthorizationStoresIssuedValues | app/src/main/java/at/gv/egiz/serviceapp/NativeOidcClient.java:111-125 | the stored state, nonce and (when written) verifier decode back to the attempt's random octets; an unwritten verifier is left as it was |
| OidcClient.AuthorizationRequestParameters | app/src/main/java/at/gv/egiz/serviceapp/NativeOidcClient.java:115-130 | the query is response_type, client_id, scope, the stored state, the stored nonce and redirect_uri, in that order, followed with PKCE by S256 and the challenge of the stored verifier |
| OidcClient.ReadTokenResponse | app/src/main/java/at/gv/egiz/serviceapp/NativeOidcClient.java:168-181 | the identity token is read iff the reply is a JSON object with both "id_token" and "access_token"; a missing id_token is reported before a missing access_token |
| OidcClient.ValidateOpenIdToken | app/src/main/java/at/gv/egiz/serviceapp/NativeOidcClient.java:195-204 | the token passes iff it parses and its nonce claim equals the stored nonce (both may be absent); a parse failure and a mismatch are told apart |
| OidcClient.UseOpenIdToken | app/src/main/java/at/gv/egiz/serviceapp/NativeOidcClient.java:207-217 | a GET to the resource URL is made iff the token is a valid header value, and its Authorization header yields the token; success iff the GET answers, with the body or "<null>" |
| OidcClient.RequestOpenIdToken | app/src/main/java/at/gv/egiz/serviceapp/NativeOidcClient.java:153-184 | discovery is re-run first; the token POST is sent iff a code is given, the verifier is stored when PKCE needs it and the token endpoint is an http(s) URL; it goes to that endpoint with the code-grant form; a resource call needs a token request and success needs a resource call |
| OidcClient.VerifyAuthenticationResponse | app/src/main/java/at/gv/egiz/serviceapp/NativeOidcClient.java:144-150 | a callback state that differs from the stored one stops the attempt with a state error, fetching nothing and leaving the cache alone; a matching state never gives that error |
| OidcClient.HandleAuthenticationResponse | app/src/main/java/at/gv/egiz/serviceapp/NativeOidcClient.java:137-142 | a token request is sent only when the callback's state equals the stored state and it carries a code; the form then carries that code and the stored verifier |
| Flow.RequestMatchesStore | app/src/main/java/at/gv/egiz/serviceapp/NativeOidcClient.java:111-121 | a built request is an OpenID Connect code-flow request whose state and nonce parameters are the values left in the store, with the selected redirect URI |
| Flow.RequestChallengeMatchesVerifier | app/src/main/java/at/gv/egiz/serviceapp/NativeOidcClient.java:122-130 | a built request carries a challenge iff PKCE is enabled, and then the S256 method and a challenge the server's check accepts for the stored verifier |
| Flow.IssuedValueSizes | app/src/main/java/at/gv/egiz/serviceapp/NativeOidcClient.java:111-124 | the stored state and nonce are 22 URL-safe characters, and the stored verifier is a well-formed code verifier |
| Flow.CallbackStateCheck | app/src/main/java/at/gv/egiz/serviceapp/NativeOidcClient.java:144-148 | after an authorization request, a callback is rejected with a state error iff its state differs from the state the request sent, and then nothing is fetched or sent |
| Flow.TokenFormLookups | app/src/main/java/at/gv/egiz/serviceapp/NativeOidcClient.java:155-159 | the token form carries grant_type=authorization_code, the code, the redirect URI and the client id |
| Flow.TokenFormVerifierLookup | app/src/main/java/at/gv/egiz/serviceapp/NativeOidcClient.java:160-163 | the token form carries a code_verifier iff PKCE is enabled |
| Flow.RedirectUriAgrees | app/src/main/java/at/gv/egiz/serviceapp/NativeOidcClient.java:186-192 | for clients with the same flags: once the callback's state matches, a code is present, the verifier is stored when PKCE needs it and the token endpoint is a valid URL, the token request is sent and repeats the redirect URI the authorization request sent |
| Flow.VerifierMatchesChallenge | app/src/main/java/at/gv/egiz/serviceapp/NativeOidcClient.java:160-163 | with PKCE the token request sends the stored verifier, which the server's S256 check accepts against the challenge the authorization request sent; without PKCE it sends none |
| Flow.SuccessRequiresEveryCheck | app/src/main/java/at/gv/egiz/serviceapp/NativeOidcClient.java:169-216 | the delegate's success is reached iff the state matches, the token request is sent, the reply holds both tokens, the nonce matches, the token fits a header and the resource answers; the GET then presents the token |
| Flow.MissingCodeSendsNoTokenRequest | app/src/main/java/at/gv/egiz/serviceapp/NativeOidcClient.java:153-157 | a callback without a code sends no token or resource request; it ends with the form error when the state matches and the state error otherwise; discovery runs iff the state matched and the cache is incomplete |
| Flow.AbsentStatesCompareEqual | app/src/main/java/at/gv/egiz/serviceapp/NativeOidcClient.java:145-148 | a callback without a state passes the state check when no state is stored |
| Flow.AbsentNoncesCompareEqual | app/src/main/java/at/gv/egiz/serviceapp/NativeOidcClient.java:197-202 | a token without a nonce claim passes the nonce check when no nonce is stored |
| Flow.MetadataCacheIsIdempotent | app/src/main/java/at/gv/egiz/serviceapp/NativeOidcClient.java:91-93 | once a load has set both endpoints, every later load fetches nothing and changes nothing |
| Flow.CallbackSucceeds | app/src/main/java/at/gv/egiz/serviceapp/NativeOidcClient.java:137-184 | a callback with the stored state and a code, answered with both tokens and the stored nonce, succeeds without a new discovery, posting the code grant to the cached endpoint |
| Flow.EndToEnd | app/src/main/java/at/gv/egiz/serviceapp/NativeOidcClient.java:110-217 | with PKCE, an authorization request followed by its echoed callback and a matching token response ends in success, with the code and an accepted verifier in the token request and the token presented to the resource |

## Left out

- Network I/O (OkHttp): each HTTP call's answer is an input, and the requests sent are part of the result. Redirect handling (`followRedirects(false)`) and status codes are not modelled; the client reads the body whatever the status is.
- JSON parsing (`JSONObject`): a reply is modelled as "not an object", or as the map of fields that `getString` can read. A field whose value is not a string is not modelled.
- JWT parsing (`SignedJWT`): an input function that gives the nonce claim or a parse failure. The source checks no signature, issuer, audience or expiry, and neither does the model.
- SHA-256 (`MessageDigest`) is an input function from octets to 32 octets. `SecureRandom` is the `Randomness` input.
- Threads: the constructor starts `loadMetadata` on a background thread. The model has `OidcClient.NewClient` plus an explicit `LoadMetadata`, and races between the two are not modelled.
- Logging and `bodyToString` are left out because they only produce log text.
- `getConfig` is left out because it is an accessor.
- Percent-encoding: queries and forms are modelled as ordered name/value pairs before encoding. `Uri.getQueryParameter` decoding is not modelled.
- URL parsing (`HttpUrl.get`, `Request.Builder.url`): reduced to `Uri.IsHttpUrl`, which requires a case-insensitive "http:" or "https:", any run of slashes or backslashes, and a host that does not start with '?' or '#'. OkHttp's whitespace trimming, host validation (characters, ports, IP literals) and ws:/wss: rewriting are not modelled.
- Callback URIs: the callback is modelled as its decoded query, so the URI is assumed to be hierarchical. `Uri.getQueryParameter` throws `UnsupportedOperationException` on an opaque URI such as "at.asitplus.notes.app:?state=x", and that exception is not modelled.
- OidcClient.WellKnownUrl: assumes the issuer URL has no query or fragment, because the configured issuer has neither.
- `delegate.startViewIntentAndFinish` and `delegate.success`: the URL and the success text become the operations' results.
- The other exceptions (`IOException` from the body, `NoSuchAlgorithmException`) become `OidcClient.Error` cases where they can happen, or are left out where the platform guarantees them away.
- The UI classes (`OidcFragment`, `OidcNativeFragment` apart from its preference store, `SectionsPagerAdapter`, `OidcConfig`) are not part of this model.
