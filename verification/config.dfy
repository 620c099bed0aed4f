/** The fixed relying-party configuration of `NativeOidcConfig`: every getter
    returns a constant, so every value here is a function of nothing. */
module Config {
  import opened Wrappers
  import Uri

  /** The custom URL scheme registered for the app (and for this relying party
      at the authorization server). */
  function NativeUrlScheme(): (r: string)
    ensures |r| > 0 && ':' !in r
  {
    "at.asitplus.notes.app"
  }

  function ClientId(): string {
    "https://eid.a-sit.at/notes"
  }

  /** The issuer whose discovery document names the two endpoints. */
  function AuthorizationServerUrl(): string {
    "https://eid.egiz.gv.at/"
  }

  /** The protected resource the identity token is presented to. */
  function NativeRelyingPartyUrl(): string {
    "https://eid.a-sit.at/notes-api/"
  }

  function WebRelyingPartyUrl(): string {
    "https://eid.a-sit.at/notes/"
  }

  /** The custom-scheme redirect: its scheme, as `Uri.getScheme` reads it, is
      exactly the registered scheme, so the callback is routed back to the app. */
  function NativeRedirectUrl(): (r: string)
    ensures Uri.SchemeOf(r) == Some(NativeUrlScheme())
    ensures r[|NativeUrlScheme()| + 1..] == "/oauth2redirect"
  {
    Uri.SchemeOfJoin(NativeUrlScheme(), "/oauth2redirect");
    NativeUrlScheme() + ":" + "/oauth2redirect"
  }

  /** The HTTPS redirect lives under the web relying party. */
  function WebRedirectUrl(): (r: string)
    ensures WebRelyingPartyUrl() < r
    ensures r[|WebRelyingPartyUrl()|..] == "login/oauth2/code/eid"
  {
    WebRelyingPartyUrl() + "login/oauth2/code/eid"
  }

  /** The manual-login page lives under the web relying party. */
  function WebManualLoginUrl(): (r: string)
    ensures WebRelyingPartyUrl() < r
    ensures r[|WebRelyingPartyUrl()|..] == "manuallogin"
  {
    WebRelyingPartyUrl() + "manuallogin"
  }

  /** The two redirect targets differ, so choosing between them matters. */
  lemma RedirectUrlsDistinct()
    ensures NativeRedirectUrl() != WebRedirectUrl()
  {
    var native, web := NativeRedirectUrl(), WebRedirectUrl();
    assert native[0] == NativeUrlScheme()[0] == 'a';
    assert web[0] == WebRelyingPartyUrl()[0] == 'h';
  }

  /** The HTTPS redirect's scheme is "https", not the app's own scheme. */
  lemma WebRedirectIsHttps()
    ensures Uri.SchemeOf(WebRedirectUrl()) == Some("https")
  {
    WebRedirectScheme(WebRedirectUrl());
  }

  lemma WebRedirectScheme(url: string)
    requires |url| > 6 && url[..6] == "https:"
    ensures Uri.SchemeOf(url) == Some("https")
  {
    assert url == "https" + ":" + url[6..];
    Uri.SchemeOfJoin("https", url[6..]);
  }

  /** The protected resource's URL passes `HttpUrl.get`, so the resource
      GET never fails on the URL itself. */
  lemma ResourceUrlIsHttp()
    ensures Uri.IsHttpUrl(NativeRelyingPartyUrl())
  {
    HttpsPrefix(NativeRelyingPartyUrl());
  }

  lemma HttpsPrefix(url: string)
    requires |url| > 8 && url[..8] == "https://" && Uri.HasHost(url[8..])
    ensures Uri.IsHttpUrl(url)
  {
    assert Uri.StartsWithIgnoringCase(url, "https:");
    assert url[6..][1..] == url[7..] && url[7..][1..] == url[8..];
    assert Uri.SkipSlashes(url[8..]) == url[8..];
    assert Uri.SkipSlashes(url[7..]) == url[8..];
    assert Uri.SkipSlashes(url[6..]) == url[8..];
  }
}
