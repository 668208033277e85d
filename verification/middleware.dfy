/**
 * The edge filter that runs before every admin page: a request for a protected
 * admin path that carries no access-token cookie is sent to the login page;
 * everything else continues. Only the presence of the cookie is looked at.
 */
module Middleware {
  import opened Text
  import opened Cookies

  const AdminPrefix: string := "/admin"
  const LoginPath: string := "/admin/login"
  const UnauthorizedPath: string := "/admin/unauthorized"

  datatype EdgeDecision = Continue | RedirectTo(target: string)

  /** A path the filter guards: under "/admin" but under neither exempt prefix. */
  predicate IsProtected(path: string) {
    StartsWith(path, AdminPrefix) && !StartsWith(path, LoginPath) && !StartsWith(path, UnauthorizedPath)
  }

  /** The `middleware` function itself, given the request path and its cookies. */
  function Middleware(path: string, cookies: map<string, Cookie>): (d: EdgeDecision)
    ensures d.RedirectTo? <==> IsProtected(path) && AccessTokenCookie !in cookies
    ensures d.RedirectTo? ==> d.target == LoginPath
  {
    if IsProtected(path) && AccessTokenCookie !in cookies then RedirectTo(LoginPath)
    else Continue
  }

  /** The paths the `"/admin/:path*"` matcher hands to the middleware at all. */
  predicate MatcherApplies(path: string) {
    path == AdminPrefix || StartsWith(path, AdminPrefix + "/")
  }

  /** What a request meets at the edge: the middleware where the matcher applies, otherwise nothing. */
  function EdgeFilter(path: string, cookies: map<string, Cookie>): (d: EdgeDecision)
    ensures d.RedirectTo? <==> MatcherApplies(path) && IsProtected(path) && AccessTokenCookie !in cookies
    ensures d.RedirectTo? ==> d.target == LoginPath
  {
    if MatcherApplies(path) then Middleware(path, cookies) else Continue
  }

  /** A path outside "/admin" always continues, whatever the cookies. */
  lemma OutsideAdminContinues(path: string, cookies: map<string, Cookie>)
    requires !StartsWith(path, AdminPrefix)
    ensures Middleware(path, cookies) == Continue
  {
  }

  /** The two exempt prefixes continue whatever the cookies. */
  lemma ExemptPrefixesContinue(path: string, cookies: map<string, Cookie>)
    requires StartsWith(path, LoginPath) || StartsWith(path, UnauthorizedPath)
    ensures Middleware(path, cookies) == Continue
  {
  }

  /**
   * The exemption is by prefix, not by exact path: "/admin/login-x" is exempt,
   * while "/administrator" is guarded by the function (though the matcher never
   * hands it over).
   */
  lemma PrefixMatchingExamples(cookies: map<string, Cookie>)
    requires AccessTokenCookie !in cookies
    ensures Middleware("/admin/login-x", cookies) == Continue
    ensures Middleware("/administrator", cookies) == RedirectTo(LoginPath)
    ensures EdgeFilter("/administrator", cookies) == Continue
    ensures EdgeFilter("/admin/users", cookies) == RedirectTo(LoginPath)
  {
    assert StartsWith("/admin/login-x", LoginPath);
    assert StartsWith("/administrator", AdminPrefix);
    assert "/administrator"[..|LoginPath|][6] != LoginPath[6];
    assert !StartsWith("/administrator", UnauthorizedPath);
    assert "/administrator"[..7][6] != (AdminPrefix + "/")[6];
    assert StartsWith("/admin/users", AdminPrefix + "/");
    assert StartsWith("/admin/users", AdminPrefix);
    assert "/admin/users"[..|LoginPath|][7] != LoginPath[7];
    assert !StartsWith("/admin/users", UnauthorizedPath);
  }

  /**
   * Only the access-token cookie is consulted, and only for presence: two cookie
   * jars that agree on whether it is there get the same decision, whatever the
   * values and whatever the refresh token.
   */
  lemma OnlyAccessTokenPresenceMatters(path: string, c1: map<string, Cookie>, c2: map<string, Cookie>)
    requires AccessTokenCookie in c1 <==> AccessTokenCookie in c2
    ensures Middleware(path, c1) == Middleware(path, c2)
    ensures EdgeFilter(path, c1) == EdgeFilter(path, c2)
  {
  }

  /** The redirect target is itself exempt, so one redirect never leads to another. */
  lemma RedirectTargetIsExempt(path: string, cookies: map<string, Cookie>, next: map<string, Cookie>)
    requires Middleware(path, cookies).RedirectTo?
    ensures Middleware(Middleware(path, cookies).target, next) == Continue
    ensures EdgeFilter(Middleware(path, cookies).target, next) == Continue
  {
    assert StartsWith(LoginPath, LoginPath);
  }
}
