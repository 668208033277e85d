/**
 * The admin login server action: sign in with phone and password at the identity
 * provider, then check the `users` row, and only for an admin who is not banned
 * write the two session cookies. Provider error text is turned into one of four
 * fixed user-facing messages.
 */
module LoginActions {
  import opened Wrappers
  import opened Text
  import opened Cookies
  import opened AuthUtils
  import Middleware

  const InvalidCredentialsMessage: string := "البريد الإلكتروني أو كلمة المرور غير صحيحة"
  const EmailNotConfirmedMessage: string := "يرجى تأكيد البريد الإلكتروني أولاً"
  const TooManyRequestsMessage: string := "محاولات كثيرة جداً، يرجى المحاولة لاحقاً"
  const GenericLoginErrorMessage: string := "حدث خطأ أثناء تسجيل الدخول"

  const LoginFailedMessage: string := "فشل في تسجيل الدخول"
  const PermissionCheckFailedMessage: string := "خطأ في التحقق من صلاحيات المستخدم"
  const BannedMessage: string := "تم حظر هذا الحساب"
  const NotAdminMessage: string := "ليس لديك صلاحية للوصول إلى لوحة التحكم الإدارية"
  const UnexpectedErrorMessage: string := "حدث خطأ غير متوقع"

  /** Seven days and thirty days, in seconds. */
  const AccessTokenMaxAge: nat := 60 * 60 * 24 * 7
  const RefreshTokenMaxAge: nat := 60 * 60 * 24 * 30

  /**
   * `getErrorMessage`: the provider's text is tested for three phrases in a fixed
   * order and the first phrase found picks the message.
   */
  function GetErrorMessage(message: string): (r: string)
    ensures r in {InvalidCredentialsMessage, EmailNotConfirmedMessage, TooManyRequestsMessage, GenericLoginErrorMessage}
    ensures r == InvalidCredentialsMessage <==> Includes(message, "Invalid login credentials")
    ensures r == EmailNotConfirmedMessage <==>
      !Includes(message, "Invalid login credentials") && Includes(message, "Email not confirmed")
    ensures r == TooManyRequestsMessage <==>
      !Includes(message, "Invalid login credentials") && !Includes(message, "Email not confirmed")
      && Includes(message, "Too many requests")
  {
    if Includes(message, "Invalid login credentials") then InvalidCredentialsMessage
    else if Includes(message, "Email not confirmed") then EmailNotConfirmedMessage
    else if Includes(message, "Too many requests") then TooManyRequestsMessage
    else GenericLoginErrorMessage
  }

  /** A text that names two conditions gets the message of the one tested first. */
  lemma FirstPhraseWins()
    ensures GetErrorMessage("Too many requests. Email not confirmed") == EmailNotConfirmedMessage
  {
    var m := "Too many requests. Email not confirmed";
    assert m[19..38] == "Email not confirmed";
    OccurrenceIncludes(m, "Email not confirmed", 19);
    MissingInitialExcludes(m, "Invalid login credentials");
  }

  /** The provider's session tokens. */
  datatype ProviderSession = ProviderSession(accessToken: string, refreshToken: string)

  /** What `auth.signInWithPassword({ phone, password })` does: answer `{ data: { user, session }, error }`, or throw. */
  datatype SignInReply =
    | SignInAnswer(user: Option<AuthUser>, session: Option<ProviderSession>, error: Option<AuthError>)
    | SignInThrew

  /** The `user` object of a successful login. */
  datatype LoginUser = LoginUser(id: string, phone: Option<string>, email: string, isAdmin: bool)

  /** `{ success: true, user }` or `{ success: false, error }`. */
  datatype LoginResult = LoginSucceeded(user: LoginUser) | LoginFailed(error: string)

  /** The backend calls the action makes, in order. */
  datatype BackendCall = PasswordSignIn(phone: string, password: string) | ProfileLookup(userId: string) | ProviderSignOutCall

  /** Where the decision chain stops. */
  datatype LoginStep =
    | ProviderRejected(message: string)
    | NoSession
    | ProfileLookupFailed
    | AccountBanned
    | NotAnAdmin
    | Admitted(user: AuthUser, session: ProviderSession)
    | Unexpected

  datatype LoginRun = LoginRun(step: LoginStep, calls: seq<BackendCall>)

  /**
   * The decision chain of `signInWithPhone`: provider error, missing user or
   * session, database error, banned, not an admin, admitted. An exception at any
   * call, including the provider sign-out of the banned and non-admin branches,
   * ends in `Unexpected`.
   */
  function Decide(
    phone: string,
    password: string,
    reply: SignInReply,
    profileOf: string -> ProfileQuery,
    signOut: ProviderSignOut): (run: LoginRun)
    ensures |run.calls| >= 1 && run.calls[0] == PasswordSignIn(phone, password)
    ensures run.step.Admitted? ==> ProviderSignOutCall !in run.calls
    ensures (run.step.AccountBanned? || run.step.NotAnAdmin?) ==> run.calls[|run.calls| - 1] == ProviderSignOutCall
  {
    var signedIn := [PasswordSignIn(phone, password)];
    match reply
    case SignInThrew => LoginRun(Unexpected, signedIn)
    case SignInAnswer(user, session, error) =>
      if error.Some? then LoginRun(ProviderRejected(error.value.message), signedIn)
      else if user.None? || session.None? then LoginRun(NoSession, signedIn)
      else
        var lookedUp := signedIn + [ProfileLookup(user.value.id)];
        match profileOf(user.value.id)
        case ProfileThrew => LoginRun(Unexpected, lookedUp)
        case ProfileReply(data, dbError) =>
          if dbError.Some? then LoginRun(ProfileLookupFailed, lookedUp)
          else if data.Some? && TruthyFlag(data.value.isBanned) then
            LoginRun(if signOut.SignOutThrew? then Unexpected else AccountBanned, lookedUp + [ProviderSignOutCall])
          else if !(data.Some? && TruthyFlag(data.value.isAdmin)) then
            LoginRun(if signOut.SignOutThrew? then Unexpected else NotAnAdmin, lookedUp + [ProviderSignOutCall])
          else LoginRun(Admitted(user.value, session.value), lookedUp)
  }

  /** The object the action returns for each place the chain stops. */
  function ResultOf(step: LoginStep): (r: LoginResult)
    ensures r.LoginSucceeded? <==> step.Admitted?
    ensures r.LoginSucceeded? ==> r.user.isAdmin && r.user.id == step.user.id
  {
    match step
    case ProviderRejected(message) => LoginFailed(GetErrorMessage(message))
    case NoSession => LoginFailed(LoginFailedMessage)
    case ProfileLookupFailed => LoginFailed(PermissionCheckFailedMessage)
    case AccountBanned => LoginFailed(BannedMessage)
    case NotAnAdmin => LoginFailed(NotAdminMessage)
    case Unexpected => LoginFailed(UnexpectedErrorMessage)
    case Admitted(user, _) => LoginSucceeded(LoginUser(user.id, user.phone, user.email.GetOr(""), true))
  }

  function AccessCookieOptions(secure: bool): CookieOptions {
    CookieOptions(httpOnly := true, secure := secure, sameSite := Lax, maxAge := AccessTokenMaxAge, path := "/")
  }

  function RefreshCookieOptions(secure: bool): CookieOptions {
    CookieOptions(httpOnly := true, secure := secure, sameSite := Lax, maxAge := RefreshTokenMaxAge, path := "/")
  }

  /**
   * The two cookie writes of a successful login: the access token for seven days
   * and the refresh token for thirty, both HTTP-only, same-site "lax", path "/".
   */
  function PersistSession(cookies: map<string, Cookie>, session: ProviderSession, secure: bool): (r: map<string, Cookie>)
    ensures r.Keys == cookies.Keys + {AccessTokenCookie, RefreshTokenCookie}
    ensures forall n :: n in cookies && n != AccessTokenCookie && n != RefreshTokenCookie ==> r[n] == cookies[n]
    ensures ValueOf(r, AccessTokenCookie) == Some(session.accessToken)
    ensures ValueOf(r, RefreshTokenCookie) == Some(session.refreshToken)
  {
    cookies[AccessTokenCookie := Cookie(session.accessToken, AccessCookieOptions(secure))]
           [RefreshTokenCookie := Cookie(session.refreshToken, RefreshCookieOptions(secure))]
  }

  /**
   * `signInWithPhone`. `production` stands for `NODE_ENV === "production"`, which
   * sets the cookies' `secure` flag. Besides the result it reports the backend
   * calls it made.
   */
  method SignInWithPhone(
    store: CookieStore,
    phone: string,
    password: string,
    signIn: (string, string) -> SignInReply,
    profileOf: string -> ProfileQuery,
    signOut: ProviderSignOut,
    production: bool)
    returns (result: LoginResult, calls: seq<BackendCall>)
    modifies store
    ensures var run := Decide(phone, password, signIn(phone, password), profileOf, signOut);
      && result == ResultOf(run.step)
      && calls == run.calls
      && store.entries == (if run.step.Admitted? then PersistSession(old(store.entries), run.step.session, production)
                           else old(store.entries))
  {
    calls := [PasswordSignIn(phone, password)];
    var reply := signIn(phone, password);
    if reply.SignInThrew? {
      return LoginFailed(UnexpectedErrorMessage), calls;
    }
    if reply.error.Some? {
      return LoginFailed(GetErrorMessage(reply.error.value.message)), calls;
    }
    if reply.user.None? || reply.session.None? {
      return LoginFailed(LoginFailedMessage), calls;
    }
    var user := reply.user.value;
    var session := reply.session.value;

    calls := calls + [ProfileLookup(user.id)];
    var profile := profileOf(user.id);
    if profile.ProfileThrew? {
      return LoginFailed(UnexpectedErrorMessage), calls;
    }
    if profile.error.Some? {
      return LoginFailed(PermissionCheckFailedMessage), calls;
    }
    var data := profile.data;
    if data.Some? && TruthyFlag(data.value.isBanned) {
      calls := calls + [ProviderSignOutCall];
      if signOut.SignOutThrew? {
        return LoginFailed(UnexpectedErrorMessage), calls;
      }
      return LoginFailed(BannedMessage), calls;
    }
    if !(data.Some? && TruthyFlag(data.value.isAdmin)) {
      calls := calls + [ProviderSignOutCall];
      if signOut.SignOutThrew? {
        return LoginFailed(UnexpectedErrorMessage), calls;
      }
      return LoginFailed(NotAdminMessage), calls;
    }

    store.Set(AccessTokenCookie, session.accessToken, AccessCookieOptions(production));
    store.Set(RefreshTokenCookie, session.refreshToken, RefreshCookieOptions(production));
    result := LoginSucceeded(LoginUser(user.id, user.phone, user.email.GetOr(""), true));
  }

  /** A provider error is classified and nothing else is called; no cookie is written. */
  lemma ProviderErrorStopsAtOnce(
    phone: string, password: string, user: Option<AuthUser>, session: Option<ProviderSession>, error: AuthError,
    profileOf: string -> ProfileQuery, signOut: ProviderSignOut)
    ensures var run := Decide(phone, password, SignInAnswer(user, session, Some(error)), profileOf, signOut);
      && run.calls == [PasswordSignIn(phone, password)]
      && ResultOf(run.step) == LoginFailed(GetErrorMessage(error.message))
      && !run.step.Admitted?
  {
  }

  /** A reply without a user or without a session is the fixed login failure. */
  lemma MissingSessionFails(
    phone: string, password: string, user: Option<AuthUser>, session: Option<ProviderSession>,
    profileOf: string -> ProfileQuery, signOut: ProviderSignOut)
    requires user.None? || session.None?
    ensures var run := Decide(phone, password, SignInAnswer(user, session, None), profileOf, signOut);
      && run.calls == [PasswordSignIn(phone, password)]
      && ResultOf(run.step) == LoginFailed(LoginFailedMessage)
  {
  }

  /** A database error fails the login without signing the user out at the provider. */
  lemma DatabaseErrorDoesNotSignOut(
    phone: string, password: string, user: AuthUser, session: ProviderSession,
    profileOf: string -> ProfileQuery, signOut: ProviderSignOut)
    requires profileOf(user.id).ProfileReply? && profileOf(user.id).error.Some?
    ensures var run := Decide(phone, password, SignInAnswer(Some(user), Some(session), None), profileOf, signOut);
      && ProviderSignOutCall !in run.calls
      && ResultOf(run.step) == LoginFailed(PermissionCheckFailedMessage)
  {
  }

  /** The ban check comes first: a banned account is refused whatever its `is_admin`, after a provider sign-out. */
  lemma BanCheckedBeforeAdmin(
    phone: string, password: string, user: AuthUser, session: ProviderSession,
    isAdmin: Option<bool>, profileOf: string -> ProfileQuery, signOut: ProviderSignOut)
    requires profileOf(user.id) == ProfileReply(Some(ProfileFlags(isAdmin, Some(true))), None)
    requires !signOut.SignOutThrew?
    ensures var run := Decide(phone, password, SignInAnswer(Some(user), Some(session), None), profileOf, signOut);
      && run.step == AccountBanned
      && run.calls == [PasswordSignIn(phone, password), ProfileLookup(user.id), ProviderSignOutCall]
      && ResultOf(run.step) == LoginFailed(BannedMessage)
  {
  }

  /** A row that is not banned and not admin (or no row at all) is refused after a provider sign-out. */
  lemma NonAdminRefused(
    phone: string, password: string, user: AuthUser, session: ProviderSession,
    profileOf: string -> ProfileQuery, signOut: ProviderSignOut)
    requires profileOf(user.id).ProfileReply? && profileOf(user.id).error.None?
    requires var d := profileOf(user.id).data; d.None? || (!TruthyFlag(d.value.isBanned) && !TruthyFlag(d.value.isAdmin))
    requires !signOut.SignOutThrew?
    ensures var run := Decide(phone, password, SignInAnswer(Some(user), Some(session), None), profileOf, signOut);
      && run.step == NotAnAdmin
      && run.calls[|run.calls| - 1] == ProviderSignOutCall
      && ResultOf(run.step) == LoginFailed(NotAdminMessage)
  {
  }

  /**
   * Every exception is caught by the outer handler and becomes the fixed
   * "unexpected error" failure: a throwing sign-in, a throwing lookup after a
   * clean sign-in, or a throwing provider sign-out in the banned or non-admin
   * branch; and these are the only ways to end there.
   */
  lemma {:induction false} ExceptionsGiveUnexpected(
    phone: string, password: string, reply: SignInReply,
    profileOf: string -> ProfileQuery, signOut: ProviderSignOut)
    ensures var run := Decide(phone, password, reply, profileOf, signOut);
      run.step == Unexpected <==>
        || reply.SignInThrew?
        || (&& reply.error.None? && reply.user.Some? && reply.session.Some?
            && var q := profileOf(reply.user.value.id);
            || q.ProfileThrew?
            || (q.error.None? && signOut.SignOutThrew?
                && !(q.data.Some? && !TruthyFlag(q.data.value.isBanned) && TruthyFlag(q.data.value.isAdmin))))
    ensures var run := Decide(phone, password, reply, profileOf, signOut);
      run.step == Unexpected <==> ResultOf(run.step) == LoginFailed(UnexpectedErrorMessage)
  {
    var run := Decide(phone, password, reply, profileOf, signOut);
    if ResultOf(run.step) == LoginFailed(UnexpectedErrorMessage) && run.step.ProviderRejected? {
      GetErrorMessageIsNotUnexpected(run.step.message);
    }
  }

  lemma GetErrorMessageIsNotUnexpected(message: string)
    ensures GetErrorMessage(message) != UnexpectedErrorMessage
  {
  }

  /**
   * A login succeeds exactly for a provider user with a session whose row has no
   * error, is not banned and is admin; the user returned is that provider user.
   */
  lemma SuccessIffAdminNotBanned(
    phone: string, password: string, reply: SignInReply,
    profileOf: string -> ProfileQuery, signOut: ProviderSignOut)
    ensures var run := Decide(phone, password, reply, profileOf, signOut);
      ResultOf(run.step).LoginSucceeded? <==>
        && reply.SignInAnswer? && reply.error.None? && reply.user.Some? && reply.session.Some?
        && var q := profileOf(reply.user.value.id);
        && q.ProfileReply? && q.error.None? && q.data.Some?
        && !TruthyFlag(q.data.value.isBanned) && TruthyFlag(q.data.value.isAdmin)
    ensures var run := Decide(phone, password, reply, profileOf, signOut);
      run.step.Admitted? ==>
        && run.step.user == reply.user.value && run.step.session == reply.session.value
        && ResultOf(run.step).user.id == reply.user.value.id
  {
  }

  /** Every refusal carries one of nine fixed messages. */
  lemma FailureMessagesAreFixed(step: LoginStep)
    requires ResultOf(step).LoginFailed?
    ensures ResultOf(step).error in {
      InvalidCredentialsMessage, EmailNotConfirmedMessage, TooManyRequestsMessage, GenericLoginErrorMessage,
      LoginFailedMessage, PermissionCheckFailedMessage, BannedMessage, NotAdminMessage, UnexpectedErrorMessage}
  {
  }

  /**
   * The cookies a successful login writes are the ones the session reader and the
   * edge filter look for: reading them back gives the same tokens.
   */
  lemma PersistedSessionReadsBack(
    cookies: map<string, Cookie>, session: ProviderSession, secure: bool,
    getUser: string -> UserLookup, path: string)
    requires session.accessToken != "" && session.refreshToken != ""
    requires Accepted(getUser(session.accessToken))
    ensures var stored := PersistSession(cookies, session, secure);
      GetSession(stored, getUser) ==
        Some(Session(getUser(session.accessToken).user.value, session.accessToken, session.refreshToken))
    ensures Middleware.Middleware(path, PersistSession(cookies, session, secure)) == Middleware.Continue
  {
    var stored := PersistSession(cookies, session, secure);
    assert stored[AccessTokenCookie].value == session.accessToken;
  }

  /** The written cookies carry the promised attributes. */
  lemma PersistedCookieAttributes(cookies: map<string, Cookie>, session: ProviderSession, secure: bool)
    ensures var r := PersistSession(cookies, session, secure);
      && r[AccessTokenCookie].options == CookieOptions(true, secure, Lax, 604800, "/")
      && r[RefreshTokenCookie].options == CookieOptions(true, secure, Lax, 2592000, "/")
  {
  }
}
