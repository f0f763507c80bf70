/** middleware.ts: the route guard run before every page and API request. */
module Middleware {
  import opened Text

  datatype Decision = Continue | RedirectToLogin

  /** The prefixes a request may reach without a token. */
  const PublicPrefixes: seq<string> := ["/login", "/api/auth", "/_next", "/favicon.ico", "/jhpolice.png"]

  /** A prefix test, not a segment test: "/loginx" is public too. */
  predicate IsPublic(pathname: string) {
    exists i :: 0 <= i < |PublicPrefixes| && StartsWith(pathname, PublicPrefixes[i])
  }

  /** The guard: public paths pass, any other path passes with a token and is
      sent to /login without one. */
  function Guard(pathname: string, hasToken: bool): (d: Decision)
    ensures d == RedirectToLogin <==> !IsPublic(pathname) && !hasToken
    ensures hasToken ==> d == Continue
  {
    if IsPublic(pathname) then Continue
    else if !hasToken then RedirectToLogin
    else Continue
  }

  /** Anything appended to a public path is still public. */
  lemma PublicExtends(pathname: string, rest: string)
    requires IsPublic(pathname)
    ensures IsPublic(pathname + rest)
    ensures Guard(pathname + rest, false) == Continue
  {
    var i :| 0 <= i < |PublicPrefixes| && StartsWith(pathname, PublicPrefixes[i]);
    StartsWithExtend(pathname, PublicPrefixes[i], rest);
  }

  /** "/login/anything" passes without a token, "/dashboard" does not. */
  lemma GuardExamples()
    ensures Guard("/login/anything", false) == Continue
    ensures Guard("/dashboard", false) == RedirectToLogin
    ensures Guard("/dashboard", true) == Continue
  {
    assert StartsWith("/login", PublicPrefixes[0]);
    PublicExtends("/login", "/anything");
    assert "/login" + "/anything" == "/login/anything";
    forall i | 0 <= i < |PublicPrefixes| ensures !StartsWith("/dashboard", PublicPrefixes[i]) {
      assert "/dashboard"[1] == 'd';
    }
  }
}
