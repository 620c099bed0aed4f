/** Request headers as OkHttp builds them, and the bearer credential of
    section 2.1 of RFC 6750. */
module Http {
  import opened Wrappers

  /** `Headers.checkValue`: a header value holds only horizontal tabs and
      visible ASCII or spaces; anything else makes `Request.Builder.header`
      throw. */
  predicate IsHeaderValue(v: string) {
    forall i | 0 <= i < |v| :: v[i] == '\t' || (' ' <= v[i] <= '~')
  }

  const BearerScheme := "Bearer"

  /** The credentials of an `Authorization` header: the scheme, one space, the token. */
  function BearerCredentials(token: string): (v: string)
    ensures BearerToken(v) == Some(token)
    ensures IsHeaderValue(token) <==> IsHeaderValue(v)
  {
    var v := BearerScheme + " " + token;
    assert v[..7] == "Bearer " && v[7..] == token;
    assert forall i | 0 <= i < |token| :: v[i + 7] == token[i];
    v
  }

  /** What a resource server reads back from an `Authorization` header value:
      the token after "Bearer ", or absent for any other scheme. */
  function BearerToken(v: string): Option<string> {
    if |v| >= 7 && v[..7] == "Bearer " then Some(v[7..]) else None
  }
}
