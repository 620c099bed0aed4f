/** The pieces of URI handling the client depends on: the scheme that
    `android.net.Uri.getScheme` reports, the first-match lookup of
    `Uri.getQueryParameter`, and the scheme gate of `okhttp3.HttpUrl.get`. */
module Uri {
  import opened Wrappers

  /** The text before the first ':', as `getScheme` reports it, or absent
      when there is no ':'. Unlike the scheme grammar of section 3.1 of
      RFC 3986 it accepts any character before the ':'. */
  function SchemeOf(url: string): (r: Option<string>)
    ensures r.Some? <==> ':' in url
    ensures r.Some? ==> ':' !in r.value && r.value + [':'] <= url
    decreases |url|
  {
    if |url| == 0 then None
    else if url[0] == ':' then Some([])
    else match SchemeOf(url[1..])
      case None => None
      case Some(rest) => Some([url[0]] + rest)
  }

  /** Joining a colon-free scheme to any rest with ':' gives that scheme back. */
  lemma {:induction false} SchemeOfJoin(scheme: string, rest: string)
    requires ':' !in scheme
    ensures SchemeOf(scheme + ":" + rest) == Some(scheme)
    decreases |scheme|
  {
    var url := scheme + ":" + rest;
    if |scheme| > 0 {
      assert url[1..] == scheme[1..] + ":" + rest;
      SchemeOfJoin(scheme[1..], rest);
      assert [scheme[0]] + scheme[1..] == scheme;
    } else {
      assert url[0] == ':';
    }
  }

  /** A decoded query, one (name, value) pair per parameter, in order. */
  type Query = seq<(string, string)>

  /** The value of the first parameter called `name`, or absent. */
  function QueryParameter(q: Query, name: string): (r: Option<string>)
    ensures r.None? <==> forall i | 0 <= i < |q| :: q[i].0 != name
    ensures r.Some? ==> exists i | 0 <= i < |q| :: q[i] == (name, r.value)
                          && forall j | 0 <= j < i :: q[j].0 != name
    decreases |q|
  {
    if |q| == 0 then None
    else if q[0].0 == name then Some(q[0].1)
    else
      var r := QueryParameter(q[1..], name);
      assert forall i | 1 <= i < |q| :: q[i] == q[1..][i - 1];
      r
  }

  /** The lookup finds the first parameter with the name. */
  lemma QueryParameterAt(q: Query, i: int, name: string)
    requires 0 <= i < |q| && q[i].0 == name
    requires forall j | 0 <= j < i :: q[j].0 != name
    ensures QueryParameter(q, name) == Some(q[i].1)
  {
  }

  /** Appending parameters after one called `name` does not change its lookup. */
  lemma {:induction false} QueryParameterPrefix(q: Query, more: Query, name: string)
    requires QueryParameter(q, name).Some?
    ensures QueryParameter(q + more, name) == QueryParameter(q, name)
    decreases |q|
  {
    if q[0].0 != name {
      assert (q + more)[1..] == q[1..] + more;
      QueryParameterPrefix(q[1..], more, name);
    }
  }

  /** Parameters before the first one called `name` do not affect its lookup. */
  lemma {:induction false} QueryParameterSkip(q: Query, more: Query, name: string)
    requires forall i | 0 <= i < |q| :: q[i].0 != name
    ensures QueryParameter(q + more, name) == QueryParameter(more, name)
    decreases |q|
  {
    if |q| == 0 {
      assert q + more == more;
    } else {
      assert (q + more)[1..] == q[1..] + more;
      QueryParameterSkip(q[1..], more, name);
    }
  }

  /** ASCII letters folded to lower case; other characters unchanged. */
  function LowerChar(c: char): char {
    if 'A' <= c <= 'Z' then (c as int + 32) as char else c
  }

  predicate StartsWithIgnoringCase(s: string, prefix: string) {
    |prefix| <= |s| && forall i | 0 <= i < |prefix| :: LowerChar(s[i]) == prefix[i]
  }

  predicate IsSlash(c: char) {
    c == '/' || c == '\\'
  }

  /** The text after the run of slashes and backslashes that opens it. Without
      a base URL, OkHttp reads the authority after any number of them. */
  function SkipSlashes(s: string): string
    decreases |s|
  {
    if |s| > 0 && IsSlash(s[0]) then SkipSlashes(s[1..]) else s
  }

  /** What is skipped is a run of slashes and backslashes, and all of it:
      the rest is a suffix that does not open with another one. */
  lemma {:induction false} SkipSlashesSplits(s: string)
    ensures var r := SkipSlashes(s);
            && |r| <= |s| && r == s[|s| - |r|..]
            && (forall i | 0 <= i < |s| - |r| :: IsSlash(s[i]))
            && (|r| == 0 || !IsSlash(r[0]))
    decreases |s|
  {
    if |s| > 0 && IsSlash(s[0]) {
      SkipSlashesSplits(s[1..]);
      var r := SkipSlashes(s);
      assert r == SkipSlashes(s[1..]);
      assert r == s[|s| - |r|..];
      assert forall i | 1 <= i < |s| - |r| :: s[i] == s[1..][i - 1];
    }
  }

  /** A non-empty host opens the authority. */
  predicate HasHost(rest: string) {
    |rest| > 0 && rest[0] !in "/\\?#"
  }

  /** Whether `HttpUrl.get` accepts the text: an "http" or "https" scheme in
      any letter case, then ':', any number of slashes and a non-empty host. */
  predicate IsHttpUrl(s: string) {
    || (StartsWithIgnoringCase(s, "http:") && HasHost(SkipSlashes(s[5..])))
    || (StartsWithIgnoringCase(s, "https:") && HasHost(SkipSlashes(s[6..])))
  }
}
