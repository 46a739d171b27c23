/**
 * The authentication endpoints: registration, login, refresh-token rotation,
 * the current-user lookup and the Google sign-in redirect. Token signing and
 * password hashing are opaque: their results arrive as parameters.
 */
module Auth {
  import opened Wrappers
  import opened JsValue
  import opened Accounts

  /** The pair `generateTokens` signs for a user. */
  datatype Issued = Issued(accessToken: string, refreshToken: string)

  /** The user object in a response: registration omits the avatar, login includes it. */
  datatype UserView =
    | Brief(id: nat, email: string, name: string)
    | Full(id: nat, email: string, name: string, avatar: Option<string>)

  datatype Reply =
    | InvalidInput                                  // 400 with the validator's errors
    | Failure(status: int, error: string)
    | Session(status: int, user: UserView, accessToken: string, refreshToken: string)
    | Rotated(accessToken: string, refreshToken: string)
    | Found(user: UserView)

  const InvalidCredentials := Failure(401, "Invalid credentials")
  const InvalidRefresh := Failure(403, "Invalid refresh token")

  /** `register`. `valid` is the request validator's verdict and `passwordHash`
      the hash of the submitted password. */
  function Register(s: Store, valid: bool, email: string, name: string, passwordHash: string,
                    issued: Issued, now: int): (r: (Store, Reply))
    ensures !valid ==> r == (s, InvalidInput)
    ensures valid && EmailTaken(s, email) ==> r == (s, Failure(400, "Email already registered"))
    ensures valid && !EmailTaken(s, email) ==>
              r.0.users == s.users + [User(|s.users| + 1, email, Some(passwordHash), None, name, None)]
    ensures r.1.Session? <==> valid && !EmailTaken(s, email) && !TokenStored(s.tokens, issued.refreshToken)
    ensures r.1.Session? ==>
              && r.1 == Session(201, Brief(|s.users| + 1, email, name), issued.accessToken, issued.refreshToken)
              && r.0.tokens == s.tokens + [TokenRecord(|s.users| + 1, issued.refreshToken, Expiry(now))]
    ensures valid && !EmailTaken(s, email) && !r.1.Session? ==>
              r.1 == Failure(500, "Registration failed") && r.0.tokens == s.tokens
    ensures Valid(s) ==> Valid(r.0)
  {
    if !valid then (s, InvalidInput)
    else if EmailTaken(s, email) then (s, Failure(400, "Email already registered"))
    else
      var (s1, u) := AddUser(s, email, Some(passwordHash), None, name, None);
      AddUserValid(s, email, Some(passwordHash), None, name, None);
      assert !TokenStored(s.tokens, issued.refreshToken) ==> StoreToken(s1, u.id, issued.refreshToken, now).Some?;
      match StoreToken(s1, u.id, issued.refreshToken, now)
      case None => (s1, Failure(500, "Registration failed"))
      case Some(s2) =>
        StoreTokenValid(s1, u.id, issued.refreshToken, now);
        (s2, Session(201, Brief(u.id, u.email, u.name), issued.accessToken, issued.refreshToken))
  }

  /** `user.validatePassword`: a user with no (or an empty) hash never passes;
      otherwise the opaque comparison decides. */
  predicate PasswordMatches(u: User, password: string, compare: (string, string) -> bool) {
    u.passwordHash.Some? && u.passwordHash.value != [] && compare(password, u.passwordHash.value)
  }

  /** Whether an email/password pair names a user whose password matches. */
  predicate CredentialsMatch(s: Store, email: string, password: string, compare: (string, string) -> bool) {
    var k := FindByEmail(s.users, email);
    k.Some? && PasswordMatches(s.users[k.value], password, compare)
  }

  /** `login`. */
  function Login(s: Store, valid: bool, email: string, password: string,
                 compare: (string, string) -> bool, issued: Issued, now: int): (r: (Store, Reply))
    ensures !valid ==> r == (s, InvalidInput)
    ensures valid && !CredentialsMatch(s, email, password, compare) ==> r == (s, InvalidCredentials)
    ensures r.0.users == s.users
    ensures r.1.Session? <==> valid && CredentialsMatch(s, email, password, compare)
                              && !TokenStored(s.tokens, issued.refreshToken)
    ensures r.1.Session? ==>
              var u := s.users[FindByEmail(s.users, email).value];
              && u.email == email
              && r.1 == Session(200, Full(u.id, u.email, u.name, u.avatar), issued.accessToken, issued.refreshToken)
              && r.0.tokens == s.tokens + [TokenRecord(u.id, issued.refreshToken, Expiry(now))]
    ensures valid && CredentialsMatch(s, email, password, compare) && !r.1.Session? ==>
              r == (s, Failure(500, "Login failed"))
    ensures Valid(s) ==> Valid(r.0)
  {
    if !valid then (s, InvalidInput)
    else
      match FindByEmail(s.users, email)
      case None => (s, InvalidCredentials)
      case Some(k) =>
        var u := s.users[k];
        if !PasswordMatches(u, password, compare) then (s, InvalidCredentials)
        else
          match StoreToken(s, u.id, issued.refreshToken, now)
          case None => (s, Failure(500, "Login failed"))
          case Some(s2) =>
            StoreTokenValid(s, u.id, issued.refreshToken, now);
            (s2, Session(200, Full(u.id, u.email, u.name, u.avatar), issued.accessToken, issued.refreshToken))
  }

  /** A user without a password hash (a Google account) cannot log in with a
      password, whatever the comparison would say. */
  lemma NoHashNeverLogsIn(s: Store, email: string, password: string,
                          compare: (string, string) -> bool, issued: Issued, now: int)
    requires EmailsUnique(s.users)
    requires exists i :: 0 <= i < |s.users| && s.users[i].email == email && s.users[i].passwordHash.None?
    ensures Login(s, true, email, password, compare, issued, now) == (s, InvalidCredentials)
  {
    var i :| 0 <= i < |s.users| && s.users[i].email == email && s.users[i].passwordHash.None?;
    var k := FindByEmail(s.users, email).value;
    SameEmailSameRow(s.users, i, k);
  }

  /** `refreshToken`. `body` is the submitted token; `decoded` is the user id
      the signature check yields, or `None` when the check throws. */
  function Refresh(s: Store, body: Param, decoded: Option<nat>, issued: Issued, now: int): (r: (Store, Reply))
    ensures !Truthy(body) ==> r == (s, Failure(400, "Refresh token required"))
    ensures Truthy(body) && (!body.Str? || decoded.None?) ==> r == (s, InvalidRefresh)
    ensures Truthy(body) && body.Str? && decoded.Some? && FindToken(s.tokens, body.s, decoded.value).None? ==>
              r == (s, InvalidRefresh)
    ensures r.0.users == s.users
    ensures r.1.Rotated? ==> r.1 == Rotated(issued.accessToken, issued.refreshToken)
    ensures Valid(s) ==> Valid(r.0)
  {
    if !Truthy(body) then (s, Failure(400, "Refresh token required"))
    else if !body.Str? || decoded.None? then (s, InvalidRefresh)
    else
      match FindToken(s.tokens, body.s, decoded.value)
      case None => (s, InvalidRefresh)
      case Some(k) =>
        var s1 := DeleteToken(s, k);
        DeleteTokenValid(s, k);
        if now > s.tokens[k].expiresAt then (s1, Failure(403, "Refresh token expired"))
        else
          match StoreToken(s1, decoded.value, issued.refreshToken, now)
          case None => (s1, InvalidRefresh)
          case Some(s2) =>
            StoreTokenValid(s1, decoded.value, issued.refreshToken, now);
            (s2, Rotated(issued.accessToken, issued.refreshToken))
  }

  /** A presented token that is stored but past its expiry is deleted and refused. */
  lemma ExpiredTokenPurged(s: Store, token: string, userId: nat, issued: Issued, now: int)
    requires Valid(s)
    requires exists i :: 0 <= i < |s.tokens| && s.tokens[i] == TokenRecord(userId, token, s.tokens[i].expiresAt)
                         && now > s.tokens[i].expiresAt
    requires token != []
    ensures Refresh(s, Str(token), Some(userId), issued, now).1 == Failure(403, "Refresh token expired")
    ensures !TokenStored(Refresh(s, Str(token), Some(userId), issued, now).0.tokens, token)
  {
    var i :| 0 <= i < |s.tokens| && s.tokens[i] == TokenRecord(userId, token, s.tokens[i].expiresAt)
             && now > s.tokens[i].expiresAt;
    var k := FindToken(s.tokens, token, userId).value;
    SameTokenSameRow(s.tokens, i, k);
    DeleteTokenValid(s, k);
  }

  /** A successful rotation consumes the presented token: presenting it again is
      refused, provided the newly signed token differs from it. */
  lemma RefreshTokenUsableOnce(s: Store, token: string, userId: nat, issued: Issued, issued2: Issued,
                               now: int, later: int)
    requires Valid(s) && token != [] && issued.refreshToken != token
    requires Refresh(s, Str(token), Some(userId), issued, now).1.Rotated?
    ensures var s2 := Refresh(s, Str(token), Some(userId), issued, now).0;
            Refresh(s2, Str(token), Some(userId), issued2, later) == (s2, InvalidRefresh)
  {
    var k := FindToken(s.tokens, token, userId).value;
    DeleteTokenValid(s, k);
    var s1 := DeleteToken(s, k);
    var s2 := StoreToken(s1, userId, issued.refreshToken, now).value;
    assert s2.tokens == s1.tokens + [TokenRecord(userId, issued.refreshToken, Expiry(now))];
    forall j | 0 <= j < |s2.tokens| ensures s2.tokens[j].token != token {
      if j < |s1.tokens| {
        assert s2.tokens[j] == s1.tokens[j];
      }
    }
  }

  /** A rotation deletes the presented row and stores the new token for the same
      user, who exists. */
  lemma RotationStore(s: Store, token: string, userId: nat, issued: Issued, now: int)
    requires Valid(s) && token != []
    requires Refresh(s, Str(token), Some(userId), issued, now).1.Rotated?
    ensures var s1 := DeleteToken(s, FindToken(s.tokens, token, userId).value);
            && Valid(s1) && 1 <= userId <= |s1.users|
            && StoreToken(s1, userId, issued.refreshToken, now).Some?
            && Refresh(s, Str(token), Some(userId), issued, now).0
               == StoreToken(s1, userId, issued.refreshToken, now).value
  {
    var k := FindToken(s.tokens, token, userId).value;
    DeleteTokenValid(s, k);
  }

  /** A token just stored for an existing user is accepted by a refresh within
      its thirty days. */
  lemma FreshTokenRefreshes(s1: Store, userId: nat, t: string, issued2: Issued, now: int, later: int)
    requires Valid(s1) && 1 <= userId <= |s1.users| && t != []
    requires StoreToken(s1, userId, t, now).Some?
    requires later <= Expiry(now) && issued2.refreshToken != t
    requires !TokenStored(StoreToken(s1, userId, t, now).value.tokens, issued2.refreshToken)
    ensures Refresh(StoreToken(s1, userId, t, now).value, Str(t), Some(userId), issued2, later).1
            == Rotated(issued2.accessToken, issued2.refreshToken)
  {
    var s2 := StoreToken(s1, userId, t, now).value;
    StoredTokenFound(s1, userId, t, now);
    NotStoredInPrefix(s1.tokens, [TokenRecord(userId, t, Expiry(now))], issued2.refreshToken);
    assert Refresh(s2, Str(t), Some(userId), issued2, later).0
           == StoreToken(s1, userId, issued2.refreshToken, later).value;
  }

  /** The token a rotation hands out is itself accepted by a later refresh within
      its thirty days, when the token signed then is not already stored. */
  lemma RotatedTokenRefreshes(s: Store, token: string, userId: nat, issued: Issued, issued2: Issued,
                              now: int, later: int)
    requires Valid(s) && token != [] && issued.refreshToken != []
    requires Refresh(s, Str(token), Some(userId), issued, now).1.Rotated?
    requires later <= Expiry(now)
    requires issued2.refreshToken != issued.refreshToken
    requires !TokenStored(Refresh(s, Str(token), Some(userId), issued, now).0.tokens, issued2.refreshToken)
    ensures var s2 := Refresh(s, Str(token), Some(userId), issued, now).0;
            Refresh(s2, Str(issued.refreshToken), Some(userId), issued2, later).1
            == Rotated(issued2.accessToken, issued2.refreshToken)
  {
    RotationStore(s, token, userId, issued, now);
    var s1 := DeleteToken(s, FindToken(s.tokens, token, userId).value);
    FreshTokenRefreshes(s1, userId, issued.refreshToken, issued2, now, later);
  }

  /** `getCurrentUser`. */
  function CurrentUser(s: Store, userId: nat): (r: Reply)
    ensures r.Found? <==> 1 <= userId <= |s.users|
    ensures !r.Found? ==> r == Failure(404, "User not found")
    ensures r.Found? ==> r.user.id == s.users[userId - 1].id && r.user.email == s.users[userId - 1].email
  {
    if 1 <= userId <= |s.users| then
      var u := s.users[userId - 1];
      Found(Full(u.id, u.email, u.name, u.avatar))
    else Failure(404, "User not found")
  }

  const DefaultFrontendUrl := "http://localhost:3000"

  /** The redirect after a Google sign-in whose token row was stored. */
  function CallbackUrl(frontendUrl: Option<string>, issued: Issued): string {
    EnvOr(frontendUrl, DefaultFrontendUrl) + "/auth/callback?token=" + issued.accessToken
      + "&refreshToken=" + issued.refreshToken
  }

  /** The error redirect as written: `FRONTEND_URL` interpolated without its
      fallback, so an unset variable renders as `undefined`. */
  function FailureUrlAsWritten(frontendUrl: Option<string>): (url: string)
    ensures frontendUrl.Some? ==> url == frontendUrl.value + "/login?error=auth_failed"
  {
    ToStr(Env(frontendUrl)) + "/login?error=auth_failed"
  }

  /** With `FRONTEND_URL` unset the error redirect leaves the front end: it
      points at the relative path `undefined/login`. */
  lemma FailureUrlUnsetEnv()
    ensures FailureUrlAsWritten(None) == "undefined/login?error=auth_failed"
    ensures FailureUrlAsWritten(None) != FailureUrl(None)
  {
    assert FailureUrl(None)[0] == 'h';
  }

  /** The error redirect with the same fallback as the success redirect. */
  function FailureUrl(frontendUrl: Option<string>): (url: string)
    ensures url == EnvOr(frontendUrl, DefaultFrontendUrl) + "/login?error=auth_failed"
    ensures frontendUrl.Some? && frontendUrl.value != [] ==> url == FailureUrlAsWritten(frontendUrl)
  {
    EnvOr(frontendUrl, DefaultFrontendUrl) + "/login?error=auth_failed"
  }

  /** `googleCallback` as written: store the refresh token for the signed-in
      user and redirect to the front end with both tokens; when storing fails,
      redirect to the error page of line 216, which has no fallback. */
  function GoogleCallback(s: Store, user: User, issued: Issued, frontendUrl: Option<string>, now: int): (r: (Store, string))
    ensures !TokenStored(s.tokens, issued.refreshToken) ==>
              && r.0 == Store(s.users, s.tokens + [TokenRecord(user.id, issued.refreshToken, Expiry(now))])
              && r.1 == CallbackUrl(frontendUrl, issued)
    ensures TokenStored(s.tokens, issued.refreshToken) ==> r == (s, FailureUrlAsWritten(frontendUrl))
    ensures Valid(s) && 1 <= user.id <= |s.users| ==> Valid(r.0)
  {
    SettleCallback(s, user, issued, frontendUrl, FailureUrlAsWritten(frontendUrl), now)
  }

  /** `googleCallback` with the error redirect corrected: it differs from the
      one as written only in where a failed sign-in is sent. */
  function GoogleCallbackIntended(s: Store, user: User, issued: Issued, frontendUrl: Option<string>, now: int): (r: (Store, string))
    ensures r.0 == GoogleCallback(s, user, issued, frontendUrl, now).0
    ensures !TokenStored(s.tokens, issued.refreshToken) ==> r == GoogleCallback(s, user, issued, frontendUrl, now)
    ensures TokenStored(s.tokens, issued.refreshToken) ==> r == (s, FailureUrl(frontendUrl))
    ensures Valid(s) && 1 <= user.id <= |s.users| ==> Valid(r.0)
  {
    SettleCallback(s, user, issued, frontendUrl, FailureUrl(frontendUrl), now)
  }

  /** The callback's token step, with the error page as a parameter. */
  function SettleCallback(s: Store, user: User, issued: Issued, frontendUrl: Option<string>, failure: string, now: int): (r: (Store, string))
    ensures !TokenStored(s.tokens, issued.refreshToken) ==>
              && r.0 == Store(s.users, s.tokens + [TokenRecord(user.id, issued.refreshToken, Expiry(now))])
              && r.1 == CallbackUrl(frontendUrl, issued)
    ensures TokenStored(s.tokens, issued.refreshToken) ==> r == (s, failure)
    ensures Valid(s) && 1 <= user.id <= |s.users| ==> Valid(r.0)
  {
    match StoreToken(s, user.id, issued.refreshToken, now)
    case None => (s, failure)
    case Some(s2) =>
      StoreTokenValid(s, user.id, issued.refreshToken, now);
      (s2, CallbackUrl(frontendUrl, issued))
  }

  /** With `FRONTEND_URL` unset, a sign-in whose refresh token is already
      stored is sent to `undefined/login?error=auth_failed`, where the
      corrected callback sends it to the default front end's login page. */
  lemma GoogleCallbackUnsetEnv(s: Store, user: User, issued: Issued, now: int)
    requires TokenStored(s.tokens, issued.refreshToken)
    ensures GoogleCallback(s, user, issued, None, now).1 == "undefined/login?error=auth_failed"
    ensures GoogleCallbackIntended(s, user, issued, None, now).1
            == DefaultFrontendUrl + "/login?error=auth_failed"
    ensures GoogleCallback(s, user, issued, None, now).1 != GoogleCallbackIntended(s, user, issued, None, now).1
  {
    FailureUrlUnsetEnv();
  }

  /** A session opened by login can be refreshed with its refresh token for
      thirty days. */
  lemma LoginThenRefresh(s: Store, email: string, password: string, compare: (string, string) -> bool,
                         issued: Issued, issued2: Issued, now: int, later: int)
    requires Valid(s) && issued.refreshToken != []
    requires Login(s, true, email, password, compare, issued, now).1.Session?
    requires later <= Expiry(now)
    requires issued2.refreshToken != issued.refreshToken && !TokenStored(s.tokens, issued2.refreshToken)
    ensures var (s1, reply) := Login(s, true, email, password, compare, issued, now);
            Refresh(s1, Str(issued.refreshToken), Some(reply.user.id), issued2, later).1
            == Rotated(issued2.accessToken, issued2.refreshToken)
  {
    var (s1, reply) := Login(s, true, email, password, compare, issued, now);
    StoredTokenFound(s, reply.user.id, issued.refreshToken, now);
  }
}
