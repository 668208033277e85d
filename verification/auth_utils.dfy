/**
 * Server-side session handling for admin pages: reading the session back from the
 * two token cookies, the login gate, the admin gate, and signing out.
 *
 * The identity provider's `auth.getUser`, the `users` table lookup and the
 * provider's `auth.signOut` are not visible here; each is a parameter giving what
 * the call answers (or that it threw).
 */
module AuthUtils {
  import opened Wrappers
  import opened Text
  import opened Cookies
  import Middleware

  /** A value in an identity's free-form `user_metadata`. */
  datatype Json = JNull | JBool(b: bool) | JNumber(n: int) | JString(s: string)

  /** The identity the provider returns. */
  datatype AuthUser = AuthUser(
    id: string,
    phone: Option<string>,
    email: Option<string>,
    userMetadata: map<string, Json>)

  datatype AuthError = AuthError(message: string)

  /** What `auth.getUser(token)` does: answer `{ data: { user }, error }`, or throw. */
  datatype UserLookup = UserReply(user: Option<AuthUser>, error: Option<AuthError>) | UserLookupThrew

  /** The object `getSession` returns when it does not return null. */
  datatype Session = Session(user: AuthUser, accessToken: string, refreshToken: string)

  /** The columns of a `users` row that the access checks select. */
  datatype ProfileFlags = ProfileFlags(isAdmin: Option<bool>, isBanned: Option<bool>)

  datatype DbError = DbError(message: string)

  /** What `.from("users").select(..).eq("user_id", id).single()` does: answer `{ data, error }`, or throw. */
  datatype ProfileQuery = ProfileReply(data: Option<ProfileFlags>, error: Option<DbError>) | ProfileThrew

  /** What the provider's `auth.signOut()` does: succeed, report an error, or throw. */
  datatype ProviderSignOut = SignOutOk | SignOutFailed(error: AuthError) | SignOutThrew

  /**
   * The outcome of a gate: the page proceeds with a value, or `redirect(target)`
   * ends the request, or an exception escapes to the framework.
   */
  datatype Gate<T> = Proceed(value: T) | Redirect(target: string) | Raised

  /** The provider accepted the token: it reported no error and returned a user. */
  predicate Accepted(l: UserLookup) {
    l.UserReply? && l.error.None? && l.user.Some?
  }

  /** Both token cookies hold a non-empty value. */
  predicate HasTokens(cookies: map<string, Cookie>) {
    Truthy(ValueOf(cookies, AccessTokenCookie)) && Truthy(ValueOf(cookies, RefreshTokenCookie))
  }

  /**
   * `getSession`: both cookies must hold a value before the provider is asked; any
   * failure of the provider (an error, no user, an exception) gives no session.
   */
  function GetSession(cookies: map<string, Cookie>, getUser: string -> UserLookup): (s: Option<Session>)
    ensures !HasTokens(cookies) ==> s == None
    ensures s.Some? ==> ValueOf(cookies, AccessTokenCookie) == Some(s.value.accessToken)
    ensures s.Some? ==> ValueOf(cookies, RefreshTokenCookie) == Some(s.value.refreshToken)
    ensures s.Some? ==> Accepted(getUser(s.value.accessToken)) && getUser(s.value.accessToken).user == Some(s.value.user)
    ensures HasTokens(cookies) && Accepted(getUser(cookies[AccessTokenCookie].value)) ==> s.Some?
  {
    var access := ValueOf(cookies, AccessTokenCookie);
    var refresh := ValueOf(cookies, RefreshTokenCookie);
    if !Truthy(access) || !Truthy(refresh) then None
    else
      match getUser(access.value)
      case UserLookupThrew => None
      case UserReply(user, error) =>
        if error.Some? || user.None? then None
        else Some(Session(user.value, access.value, refresh.value))
  }

  /** Without both cookies the provider is never asked: its answer cannot change the result. */
  lemma GetSessionSkipsProviderWithoutTokens(cookies: map<string, Cookie>, g1: string -> UserLookup, g2: string -> UserLookup)
    requires !HasTokens(cookies)
    ensures GetSession(cookies, g1) == GetSession(cookies, g2) == None
  {
  }

  /** Fail closed: whatever the provider says other than "this user", there is no session. */
  lemma GetSessionFailsClosed(cookies: map<string, Cookie>, getUser: string -> UserLookup)
    requires HasTokens(cookies)
    requires !Accepted(getUser(cookies[AccessTokenCookie].value))
    ensures GetSession(cookies, getUser) == None
  {
  }

  /** `requireAuth`: redirect to the login page exactly when there is no session. */
  function RequireAuth(cookies: map<string, Cookie>, getUser: string -> UserLookup): (g: Gate<Session>)
    ensures g.Redirect? <==> GetSession(cookies, getUser).None?
    ensures g.Redirect? ==> g.target == Middleware.LoginPath
    ensures g.Proceed? ==> GetSession(cookies, getUser) == Some(g.value)
    ensures !g.Raised?
  {
    match GetSession(cookies, getUser)
    case None => Redirect(Middleware.LoginPath)
    case Some(session) => Proceed(session)
  }

  /** `user_metadata?.is_admin === true`: only the boolean `true` counts. */
  predicate MetadataSaysAdmin(u: AuthUser) {
    "is_admin" in u.userMetadata && u.userMetadata["is_admin"] == JBool(true)
  }

  /** The `users` lookup returned a row, no error, and a true `is_admin`. */
  predicate DatabaseSaysAdmin(q: ProfileQuery) {
    q.ProfileReply? && q.error.None? && q.data.Some? && TruthyFlag(q.data.value.isAdmin)
  }

  /**
   * `requireAdminAuth`: after `requireAuth`, a metadata flag of exactly `true` admits
   * at once; otherwise the `users` row decides, and an error or a falsy `is_admin`
   * sends the caller to the unauthorized page. The lookup is not guarded, so an
   * exception from it escapes.
   */
  function RequireAdminAuth(
    cookies: map<string, Cookie>,
    getUser: string -> UserLookup,
    profileOf: string -> ProfileQuery): (g: Gate<Session>)
    ensures GetSession(cookies, getUser).None? ==> g == Redirect(Middleware.LoginPath)
    ensures g.Proceed? ==> GetSession(cookies, getUser) == Some(g.value)
    ensures g.Proceed? ==> MetadataSaysAdmin(g.value.user) || DatabaseSaysAdmin(profileOf(g.value.user.id))
    ensures g.Redirect? && g.target == Middleware.UnauthorizedPath ==>
      var s := GetSession(cookies, getUser);
      s.Some? && !MetadataSaysAdmin(s.value.user) && !DatabaseSaysAdmin(profileOf(s.value.user.id))
    ensures g.Raised? <==>
      var s := GetSession(cookies, getUser);
      s.Some? && !MetadataSaysAdmin(s.value.user) && profileOf(s.value.user.id).ProfileThrew?
    ensures GetSession(cookies, getUser).Some? ==> g != Redirect(Middleware.LoginPath)
  {
    match RequireAuth(cookies, getUser)
    case Proceed(session) =>
      if MetadataSaysAdmin(session.user) then Proceed(session)
      else
        (match profileOf(session.user.id)
         case ProfileThrew => Raised
         case ProfileReply(data, error) =>
           if error.Some? || !(data.Some? && TruthyFlag(data.value.isAdmin)) then Redirect(Middleware.UnauthorizedPath)
           else Proceed(session))
    case Redirect(target) => Redirect(target)
    case Raised => Raised
  }

  /** With the metadata flag set, the `users` table is never consulted. */
  lemma MetadataAdminSkipsDatabase(
    cookies: map<string, Cookie>,
    getUser: string -> UserLookup,
    p1: string -> ProfileQuery,
    p2: string -> ProfileQuery)
    requires GetSession(cookies, getUser).Some?
    requires MetadataSaysAdmin(GetSession(cookies, getUser).value.user)
    ensures RequireAdminAuth(cookies, getUser, p1) == RequireAdminAuth(cookies, getUser, p2)
    ensures RequireAdminAuth(cookies, getUser, p1) == Proceed(GetSession(cookies, getUser).value)
  {
  }

  /** Without the metadata flag, the database decides between admission and the unauthorized page. */
  lemma DatabaseDecidesWithoutMetadata(
    cookies: map<string, Cookie>,
    getUser: string -> UserLookup,
    profileOf: string -> ProfileQuery)
    requires GetSession(cookies, getUser).Some?
    requires !MetadataSaysAdmin(GetSession(cookies, getUser).value.user)
    requires !profileOf(GetSession(cookies, getUser).value.user.id).ProfileThrew?
    ensures var s := GetSession(cookies, getUser).value;
      RequireAdminAuth(cookies, getUser, profileOf) ==
        if DatabaseSaysAdmin(profileOf(s.user.id)) then Proceed(s) else Redirect(Middleware.UnauthorizedPath)
  {
  }

  /** A throwing lookup is not caught: the gate raises instead of redirecting. */
  lemma LookupExceptionEscapes(
    cookies: map<string, Cookie>,
    getUser: string -> UserLookup,
    profileOf: string -> ProfileQuery)
    requires GetSession(cookies, getUser).Some?
    requires !MetadataSaysAdmin(GetSession(cookies, getUser).value.user)
    requires profileOf(GetSession(cookies, getUser).value.user.id).ProfileThrew?
    ensures RequireAdminAuth(cookies, getUser, profileOf) == Raised
  {
  }

  /** Two lookups that agree on everything but `is_banned`. */
  predicate SameExceptBan(q1: ProfileQuery, q2: ProfileQuery) {
    match (q1, q2)
    case (ProfileThrew, ProfileThrew) => true
    case (ProfileReply(d1, e1), ProfileReply(d2, e2)) =>
      e1 == e2 && d1.Some? == d2.Some? && (d1.Some? ==> d1.value.isAdmin == d2.value.isAdmin)
    case _ => false
  }

  /** The admin gate never reads `is_banned`: changing it changes nothing. */
  lemma AdminGateIgnoresBan(
    cookies: map<string, Cookie>,
    getUser: string -> UserLookup,
    p1: string -> ProfileQuery,
    p2: string -> ProfileQuery)
    requires forall id :: SameExceptBan(p1(id), p2(id))
    ensures RequireAdminAuth(cookies, getUser, p1) == RequireAdminAuth(cookies, getUser, p2)
  {
    var s := GetSession(cookies, getUser);
    if s.Some? {
      assert SameExceptBan(p1(s.value.user.id), p2(s.value.user.id));
    }
  }

  /** Consequently a banned account whose row says admin is admitted by the gate. */
  lemma BannedAdminIsAdmitted(
    cookies: map<string, Cookie>,
    getUser: string -> UserLookup,
    profileOf: string -> ProfileQuery)
    requires GetSession(cookies, getUser).Some?
    requires profileOf(GetSession(cookies, getUser).value.user.id) == ProfileReply(Some(ProfileFlags(Some(true), Some(true))), None)
    ensures RequireAdminAuth(cookies, getUser, profileOf) == Proceed(GetSession(cookies, getUser).value)
  {
  }

  /** The store after sign-out: both token cookies gone, every other cookie untouched. */
  function WithoutSession(cookies: map<string, Cookie>): (r: map<string, Cookie>)
    ensures AccessTokenCookie !in r && RefreshTokenCookie !in r
    ensures forall n :: n != AccessTokenCookie && n != RefreshTokenCookie ==>
      (n in r <==> n in cookies) && (n in r ==> r[n] == cookies[n])
  {
    cookies - {AccessTokenCookie, RefreshTokenCookie}
  }

  /**
   * `signOut`: the provider is told first; whether or not it reports an error, both
   * cookies are then deleted. Only an exception from the provider skips the
   * deletion, and it is swallowed, so `signOut` itself never fails.
   */
  method SignOut(store: CookieStore, provider: ProviderSignOut)
    modifies store
    ensures provider.SignOutThrew? ==> store.entries == old(store.entries)
    ensures !provider.SignOutThrew? ==> store.entries == WithoutSession(old(store.entries))
  {
    if provider.SignOutThrew? {
      return;
    }
    store.Delete(AccessTokenCookie);
    store.Delete(RefreshTokenCookie);
  }

  /** Signing out twice leaves the store as signing out once. */
  lemma {:induction false} SignOutIdempotent(cookies: map<string, Cookie>)
    ensures WithoutSession(WithoutSession(cookies)) == WithoutSession(cookies)
  {
  }

  /** After sign-out no session can be read back, whatever the provider would say. */
  lemma NoSessionAfterSignOut(cookies: map<string, Cookie>, getUser: string -> UserLookup)
    ensures GetSession(WithoutSession(cookies), getUser) == None
    ensures RequireAuth(WithoutSession(cookies), getUser) == Redirect(Middleware.LoginPath)
  {
  }
}
