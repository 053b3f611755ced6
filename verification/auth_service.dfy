/** The authentication service (src/auth/auth.service.ts): registration, email
    verification, password check, login, the rate-limited password reset and the
    token pair it signs. */
module AuthService {
  import opened Base
  import opened Records
  import opened Seqs
  import opened Store
  import opened UserService

  /** The `{accessToken, refreshToken}` pair `generateTokens` returns. */
  datatype TokenPair = TokenPair(accessToken: string, refreshToken: string)

  /** `{id, name}`, what the password check hands to the login step. */
  datatype UserRef = UserRef(id: string, name: string)

  /** The user part of a login answer. */
  datatype LoginUser = LoginUser(id: string, name: Option<string>, userAgent: Option<string>)

  /** What `login` (and the MFA login) return. */
  datatype LoginResult = LoginResult(
    accessToken: string,
    refreshToken: string,
    sessionId: string,
    user: LoginUser)

  /** The reset link `${origin}/reset-password?code=${code}&exp=${expires}`, kept as
      the two values it embeds. */
  datatype ResetLink = ResetLink(code: string, exp: int)

  datatype ResetResponse = ResetResponse(message: string, url: ResetLink, emailId: string)

  /** `{id, sessionId}` from `validateJwtUser`. */
  datatype CurrentUser = CurrentUser(id: string, sessionId: string)

  /** What `refreshToken` returns. */
  datatype RefreshResult = RefreshResult(
    id: string,
    name: string,
    accessToken: string,
    refreshToken: string)

  // ---------------------------------------------------------------------------
  // Tokens

  /** `generateTokens`: the access token signs `{userId, sessionId}` with the
      default key, the refresh token signs `{sub, sessionId}` with the refresh
      configuration; both are issued at `now`. */
  function GenerateTokens(ext: Externals, userId: string, sessionId: Option<string>, now: int): (r: TokenPair)
    ensures r.accessToken == ext.sign(AccessClaims(userId, sessionId), DefaultKey, now)
    ensures r.refreshToken == ext.sign(RefreshClaims(userId, sessionId), RefreshKey, now)
  {
    TokenPair(ext.sign(AccessClaims(userId, sessionId), DefaultKey, now),
              ext.sign(RefreshClaims(userId, sessionId), RefreshKey, now))
  }

  /** Under a JWT library that keeps its promise, the two tokens of a pair decode,
      each under its own key and within its own lifetime, to the user and session
      they were issued for. */
  lemma GeneratedTokensVerify(ext: Externals, userId: string, sessionId: Option<string>,
                              issued: int, accessTtl: int, refreshTtl: int, now: int)
    requires JwtRoundTrip(ext, DefaultKey, accessTtl) && JwtRoundTrip(ext, RefreshKey, refreshTtl)
    ensures issued <= now < issued + accessTtl ==>
              ext.verifyJwt(GenerateTokens(ext, userId, sessionId, issued).accessToken, DefaultKey, now)
                == Some(AccessClaims(userId, sessionId))
    ensures issued <= now < issued + refreshTtl ==>
              ext.verifyJwt(GenerateTokens(ext, userId, sessionId, issued).refreshToken, RefreshKey, now)
                == Some(RefreshClaims(userId, sessionId))
  {
  }

  /** `refreshToken`: a fresh pair for the user, signed WITHOUT a session id. */
  function RefreshToken(ext: Externals, userId: string, name: string, now: int): (r: RefreshResult)
    ensures r.id == userId && r.name == name
    ensures r.accessToken == ext.sign(AccessClaims(userId, None), DefaultKey, now)
    ensures r.refreshToken == ext.sign(RefreshClaims(userId, None), RefreshKey, now)
  {
    var pair := GenerateTokens(ext, userId, None, now);
    RefreshResult(userId, name, pair.accessToken, pair.refreshToken)
  }

  /** The access token `refreshToken` issues decodes to the user with no session. */
  lemma RefreshedTokenHasNoSession(ext: Externals, userId: string, name: string,
                                   issued: int, accessTtl: int, now: int)
    requires JwtRoundTrip(ext, DefaultKey, accessTtl)
    requires issued <= now < issued + accessTtl
    ensures ext.verifyJwt(RefreshToken(ext, userId, name, issued).accessToken, DefaultKey, now)
              == Some(AccessClaims(userId, None))
  {
  }

  /** `validateJwtUser`: `{id, sessionId}` for an existing user, else Unauthorized. */
  function ValidateJwtUser(store: Store, userId: string, sessionId: string): (r: Result<CurrentUser>)
    reads store
    ensures r.Ok? <==> exists u :: u in store.users && u.id == userId
    ensures r.Ok? ==> r.value == CurrentUser(userId, sessionId)
    ensures r.Err? ==> r.error == Unauthorized("User not found")
  {
    match FindOne(store, userId)
    case None => Err(Unauthorized("User not found"))
    case Some(user) => Ok(CurrentUser(user.id, sessionId))
  }

  /** `validateRefreshToken`: the id of an existing user, else Unauthorized. */
  function ValidateRefreshToken(store: Store, userId: string): (r: Result<string>)
    reads store
    ensures r.Ok? <==> exists u :: u in store.users && u.id == userId
    ensures r.Ok? ==> r.value == userId
    ensures r.Err? ==> r.error == Unauthorized("User not found")
  {
    match FindOne(store, userId)
    case None => Err(Unauthorized("User not found"))
    case Some(user) => Ok(user.id)
  }

  // ---------------------------------------------------------------------------
  // Registration and email verification

  /** `registerUser`: Conflict, and nothing written, when the email is taken;
      otherwise exactly what `create` writes. */
  method RegisterUser(store: Store, ext: Externals, dto: NewUser,
                      userId: string, requestId: string, code: string,
                      mail: MailResult, now: int)
    returns (r: Result<Profile>)
    requires store.Valid()
    requires !HasKey(store.users, UserId, userId)
    requires !HasKey(store.requests, RequestId, requestId)
    requires !HasKey(store.requests, RequestCode, code)
    modifies store
    ensures store.Valid()
    ensures r.Err? <==> exists u :: u in old(store.users) && u.email == dto.email
    ensures r.Err? ==> r.error == Conflict("User already exists") && unchanged(store)
    ensures r.Ok? ==>
      && store.users == old(store.users) + [User(userId, dto.email, dto.name, ext.hash(dto.password), false)]
      && store.requests == old(store.requests) +
           [VerificationRequest(requestId, userId, code, EmailVerification, now, now + EmailVerificationTtl)]
      && store.prefs == old(store.prefs) + [InitialPrefs(userId)]
      && store.sessions == old(store.sessions)
      && r.value == Profile(dto.name, dto.email, false, InitialPrefs(userId))
  {
    var existing := FindByEmail(store, dto.email);
    if existing.Some? {
      return Err(Conflict("User already exists"));
    }
    assert !HasKey(store.users, UserEmail, dto.email) by {
      assert UserByEmail(store.users, dto.email).None?;
    }
    var profile := Create(store, ext, dto, userId, requestId, code, mail, now);
    r := Ok(profile);
  }

  /** The request `verifyEmail` consumes: the first one with that code, of type
      EMAIL_VERIFICATION, that has not expired (`expires >= now`). */
  function FindValidCode(requests: seq<VerificationRequest>, code: string, now: int)
    : (r: Option<VerificationRequest>)
    ensures r.Some? ==> r.value in requests && r.value.code == code &&
                        r.value.kind == EmailVerification && r.value.expires >= now
    ensures r.None? <==> forall v :: v in requests ==>
                           !(v.code == code && v.kind == EmailVerification && v.expires >= now)
  {
    Find(requests, (v: VerificationRequest) => v.code == code && v.kind == EmailVerification && v.expires >= now)
  }

  /** The users table with the email of `userId` marked verified. */
  function MarkEmailVerified(users: seq<User>, userId: string): (r: seq<User>)
    ensures |r| == |users|
    ensures forall i :: 0 <= i < |users| ==>
              r[i].id == users[i].id && r[i].email == users[i].email &&
              r[i].name == users[i].name && r[i].password == users[i].password &&
              r[i].isEmailVerified == (users[i].isEmailVerified || users[i].id == userId)
    ensures forall i :: 0 <= i < |users| && users[i].id != userId ==> r[i] == users[i]
  {
    Update(users, (u: User) => u.id == userId, (u: User) => u.(isEmailVerified := true))
  }

  /** A code that `verifyEmail` accepted is gone afterwards: with unique ids and
      codes, deleting the consumed request removes exactly that row, and no
      request with the code is left, so a second call with it fails. */
  lemma {:induction false} VerifiedCodeIsSpent(requests: seq<VerificationRequest>, code: string, now: int, later: int)
    requires UniqueKeys(requests, RequestId) && UniqueKeys(requests, RequestCode)
    requires FindValidCode(requests, code, now).Some?
    ensures var v := FindValidCode(requests, code, now).value;
            exists i :: 0 <= i < |requests| && requests[i] == v &&
                        RemoveKey(requests, RequestId, v.id) == requests[..i] + requests[i + 1..]
    ensures FindValidCode(RemoveKey(requests, RequestId, FindValidCode(requests, code, now).value.id), code, later).None?
  {
    var v := FindValidCode(requests, code, now).value;
    var i :| 0 <= i < |requests| && requests[i] == v;
    RemoveUnique(requests, RequestId, i);
    var rest := RemoveKey(requests, RequestId, v.id);
    forall w | w in rest ensures w.code != code {
      var k :| 0 <= k < |requests| && requests[k] == w;
      assert k != i;
      if k < i {
        assert RequestCode(requests[k]) != RequestCode(requests[i]);
      } else {
        assert RequestCode(requests[i]) != RequestCode(requests[k]);
      }
    }
  }

  /** A freshly issued code can be redeemed until it expires: when no request
      had the code, the lookup after appending the new request finds it. */
  lemma NewCodeIsRedeemable(requests: seq<VerificationRequest>, v: VerificationRequest, now: int)
    requires !HasKey(requests, RequestCode, v.code)
    requires v.kind == EmailVerification && now <= v.expires
    ensures FindValidCode(requests + [v], v.code, now) == Some(v)
  {
    NotHasKey(requests, RequestCode, v.code);
    FindAppend(requests, (w: VerificationRequest) => w.code == v.code && w.kind == EmailVerification && w.expires >= now, v);
  }

  /** `verifyEmail`: consumes the first unexpired EMAIL_VERIFICATION request with
      that code: marks its user verified and deletes exactly that request. With
      no such request it fails with Unauthorized and writes nothing. */
  method VerifyEmail(store: Store, code: string, now: int) returns (r: Result<User>)
    requires store.Valid()
    modifies store
    ensures store.Valid()
    ensures r.Ok? <==> FindValidCode(old(store.requests), code, now).Some?
    ensures r.Err? ==> r.error == Unauthorized("Invalid or expired code") && unchanged(store)
    ensures r.Ok? ==>
      var v := FindValidCode(old(store.requests), code, now).value;
      && store.users == MarkEmailVerified(old(store.users), v.userId)
      && store.requests == RemoveKey(old(store.requests), RequestId, v.id)
      && r.value in store.users && r.value.id == v.userId && r.value.isEmailVerified
    ensures store.prefs == old(store.prefs) && store.sessions == old(store.sessions)
  {
    var validCode := FindValidCode(store.requests, code, now);
    if validCode.None? {
      return Err(Unauthorized("Invalid or expired code"));
    }
    var v := validCode.value;
    // The request's user exists (every request names a user), so the update finds it.
    var found := UserById(store.users, v.userId);
    var user := found.value;
    var users' := MarkEmailVerified(store.users, v.userId);
    var requests' := RemoveKey(store.requests, RequestId, v.id);
    KeepsConsistent(store.users, store.prefs, store.sessions, store.requests, v.userId, v.id);
    var k :| 0 <= k < |store.users| && store.users[k] == user;
    assert users'[k] in users' && users'[k].id == v.userId && users'[k].isEmailVerified;
    WriteUsersAndRequests(store, users', requests');
    r := Ok(users'[k]);
  }

  /** The two writes of `verifyEmail` (`user.update`, then
      `verificationRequest.delete`), once their result is known to keep the
      constraints. */
  method WriteUsersAndRequests(store: Store, users: seq<User>, requests: seq<VerificationRequest>)
    requires store.Valid()
    requires UsersConsistent(users, store.prefs) && RequestsConsistent(users, requests)
    requires SessionsConsistent(users, store.sessions)
    modifies store
    ensures store.Valid()
    ensures store.users == users && store.requests == requests
    ensures store.prefs == old(store.prefs) && store.sessions == old(store.sessions)
  {
    store.users := users;
    store.requests := requests;
  }

  /** Marking a user verified and deleting one request keeps the constraints. */
  lemma KeepsConsistent(users: seq<User>, prefs: seq<Preferences>, sessions: seq<Session>,
                        requests: seq<VerificationRequest>, userId: string, requestId: string)
    requires UsersConsistent(users, prefs) && RequestsConsistent(users, requests)
    requires SessionsConsistent(users, sessions)
    ensures UsersConsistent(MarkEmailVerified(users, userId), prefs)
    ensures RequestsConsistent(MarkEmailVerified(users, userId), RemoveKey(requests, RequestId, requestId))
    ensures SessionsConsistent(MarkEmailVerified(users, userId), sessions)
  {
    var users' := MarkEmailVerified(users, userId);
    assert forall k :: HasKey(users', UserId, k) <==> HasKey(users, UserId, k) by {
      forall k ensures HasKey(users', UserId, k) <==> HasKey(users, UserId, k) {
        if HasKey(users, UserId, k) {
          var i :| 0 <= i < |users| && UserId(users[i]) == k;
          assert UserId(users'[i]) == k;
        }
        if HasKey(users', UserId, k) {
          var i :| 0 <= i < |users'| && UserId(users'[i]) == k;
          assert UserId(users[i]) == k;
        }
      }
    }
    forall i, j | 0 <= i < j < |users'| ensures UserId(users'[i]) != UserId(users'[j]) {
      assert UserId(users[i]) != UserId(users[j]);
    }
    forall i, j | 0 <= i < j < |users'| ensures UserEmail(users'[i]) != UserEmail(users'[j]) {
      assert UserEmail(users[i]) != UserEmail(users[j]);
    }
    forall u | u in users' ensures HasKey(prefs, PrefsUserId, u.id) {
      var i :| 0 <= i < |users'| && users'[i] == u;
      assert users[i] in users;
    }
    UniqueKeysRemoveKey(requests, RequestId, requestId, RequestId);
    UniqueKeysRemoveKey(requests, RequestId, requestId, RequestCode);
  }

  // ---------------------------------------------------------------------------
  // Password check and login

  /** `validateLocalUser`: `{id, name}` of the user with that email when the hash
      check of the password passes; Unauthorized for an unknown email or a failed
      check. */
  function ValidateLocalUser(store: Store, ext: Externals, email: string, password: string)
    : (r: Result<UserRef>)
    reads store
    requires store.Valid()
    ensures r.Ok? <==> exists u :: u in store.users && u.email == email && ext.verifyHash(u.password, password)
    ensures r.Ok? ==> exists u :: u in store.users && u.email == email && r.value == UserRef(u.id, u.name)
    ensures (forall u :: u in store.users ==> u.email != email) ==> r == Err(Unauthorized("User not found!"))
    ensures (exists u :: u in store.users && u.email == email && !ext.verifyHash(u.password, password)) ==>
              r == Err(Unauthorized("Invalid credentials"))
  {
    match FindByEmail(store, email)
    case None => Err(Unauthorized("User not found!"))
    case Some(user) =>
      assert forall u :: u in store.users && u.email == email ==> u == user by {
        forall u | u in store.users && u.email == email ensures u == user {
          var i :| 0 <= i < |store.users| && store.users[i] == u;
          var j :| 0 <= j < |store.users| && store.users[j] == user;
          assert UserEmail(store.users[i]) == UserEmail(store.users[j]);
        }
      }
      if !ext.verifyHash(user.password, password) then Err(Unauthorized("Invalid credentials"))
      else Ok(UserRef(user.id, user.name))
  }

  /** `login`: inserts exactly one 30-day session and answers with a token pair
      bound to that session's id. Its caller has found the user by the password
      check (`validateLocalUser`), so the user exists. */
  method Login(store: Store, ext: Externals, userId: string, name: Option<string>,
               userAgent: Option<string>, sessionId: string, now: int)
    returns (r: LoginResult)
    requires store.Valid()
    requires HasKey(store.users, UserId, userId)
    requires !HasKey(store.sessions, SessionId, sessionId)
    modifies store
    ensures store.Valid()
    ensures store.sessions == old(store.sessions) + [Session(sessionId, userId, userAgent, now, now + SessionTtl)]
    ensures store.users == old(store.users) && store.prefs == old(store.prefs)
    ensures store.requests == old(store.requests)
    ensures r.sessionId == sessionId
    ensures TokenPair(r.accessToken, r.refreshToken) == GenerateTokens(ext, userId, Some(sessionId), now)
    ensures r.user == LoginUser(userId, name, userAgent)
  {
    var sid := CreateSessionAfterLogin(store, userId, userAgent, sessionId, now);
    var pair := GenerateTokens(ext, userId, Some(sid), now);
    r := LoginResult(pair.accessToken, pair.refreshToken, sid, LoginUser(userId, name, userAgent));
  }

  // ---------------------------------------------------------------------------
  // Password reset and its rate limiter

  /** The rows the rate limiter counts: the user's PASSWORD_RESET requests created
      at or after `since`. */
  function IsRecentReset(userId: string, since: int): VerificationRequest -> bool
  {
    (v: VerificationRequest) => v.userId == userId && v.kind == PasswordReset && v.createdAt >= since
  }

  /** The count `forgotPassword` checks: the user's reset requests in the trailing
      three minutes. */
  function RecentResets(requests: seq<VerificationRequest>, userId: string, now: int): (n: nat)
    ensures n <= |requests|
    ensures n == 0 <==> forall v :: v in requests ==>
                          !(v.userId == userId && v.kind == PasswordReset && v.createdAt >= now - ResetWindow)
  {
    var recent := Filter(requests, IsRecentReset(userId, now - ResetWindow));
    assert |recent| > 0 ==> recent[0] in recent;
    Count(requests, IsRecentReset(userId, now - ResetWindow))
  }

  /** The request `forgotPassword` creates: PASSWORD_RESET, valid for an hour. */
  function ResetRequest(userId: string, id: string, code: string, now: int): (v: VerificationRequest)
    ensures v.userId == userId && v.kind == PasswordReset
    ensures v.createdAt == now && v.expires == now + PasswordResetTtl
  {
    VerificationRequest(id, userId, code, PasswordReset, now, now + PasswordResetTtl)
  }

  /** Each allowed reset raises the user's count by exactly one and leaves every
      other user's count alone; so an allowed call never takes it past the limit. */
  lemma ResetCountsOnce(requests: seq<VerificationRequest>, userId: string, other: string,
                        id: string, code: string, now: int)
    requires RecentResets(requests, userId, now) < MaxResetAttempts
    ensures RecentResets(requests + [ResetRequest(userId, id, code, now)], userId, now)
              == RecentResets(requests, userId, now) + 1 <= MaxResetAttempts
    ensures other != userId ==>
              RecentResets(requests + [ResetRequest(userId, id, code, now)], other, now)
                == RecentResets(requests, other, now)
  {
    CountAppend(requests, IsRecentReset(userId, now - ResetWindow), ResetRequest(userId, id, code, now));
    CountAppend(requests, IsRecentReset(other, now - ResetWindow), ResetRequest(userId, id, code, now));
  }

  /** The requests table after one `forgotPassword` attempt at `now` for a known
      user: a new reset request is added exactly when the limit allows it (a
      failed mail send does not undo the insert). */
  function AfterResetAttempt(requests: seq<VerificationRequest>, userId: string,
                             id: string, code: string, now: int): (r: seq<VerificationRequest>)
    ensures RecentResets(requests, userId, now) >= MaxResetAttempts ==> r == requests
    ensures RecentResets(requests, userId, now) < MaxResetAttempts ==>
              r == requests + [ResetRequest(userId, id, code, now)]
  {
    if RecentResets(requests, userId, now) >= MaxResetAttempts then requests
    else requests + [ResetRequest(userId, id, code, now)]
  }

  /** The requests table after a run of attempts at the same instant, one per
      generated (id, code) pair. */
  function AfterResetAttempts(requests: seq<VerificationRequest>, userId: string,
                              generated: seq<(string, string)>, now: int): (r: seq<VerificationRequest>)
    decreases |generated|
    ensures |requests| <= |r| <= |requests| + |generated|
  {
    if |generated| == 0 then requests
    else AfterResetAttempts(AfterResetAttempt(requests, userId, generated[0].0, generated[0].1, now),
                            userId, generated[1..], now)
  }

  /** A run of attempts only appends: the old table is kept as a prefix, and every
      row added is a reset request of that user, created at that instant. */
  lemma {:induction false} AttemptsAddOnlyResets(requests: seq<VerificationRequest>, userId: string,
                                                 generated: seq<(string, string)>, now: int)
    decreases |generated|
    ensures var r := AfterResetAttempts(requests, userId, generated, now);
            r[..|requests|] == requests
    ensures var r := AfterResetAttempts(requests, userId, generated, now);
            forall i :: |requests| <= i < |r| ==>
              r[i].userId == userId && r[i].kind == PasswordReset && r[i].createdAt == now
  {
    if |generated| > 0 {
      var next := AfterResetAttempt(requests, userId, generated[0].0, generated[0].1, now);
      AttemptsAddOnlyResets(next, userId, generated[1..], now);
      var r := AfterResetAttempts(requests, userId, generated, now);
      assert r == AfterResetAttempts(next, userId, generated[1..], now);
      forall i | |requests| <= i < |next|
        ensures r[i].userId == userId && r[i].kind == PasswordReset && r[i].createdAt == now
      {
        assert i == |requests| && next == requests + [ResetRequest(userId, generated[0].0, generated[0].1, now)];
        assert r[..|next|][i] == next[i];
      }
      assert r[..|requests|] == r[..|next|][..|requests|];
    }
  }

  /** The rate limit over any run of attempts at one instant: the count only grows
      while it is below two, by one per attempt, so it ends at two at most (or
      where it started, if it already was two or more). */
  lemma {:induction false} RateLimitOverAttempts(requests: seq<VerificationRequest>, userId: string,
                                                 generated: seq<(string, string)>, now: int)
    decreases |generated|
    ensures var c := RecentResets(requests, userId, now);
            RecentResets(AfterResetAttempts(requests, userId, generated, now), userId, now) ==
              if c >= MaxResetAttempts then c
              else if c + |generated| <= MaxResetAttempts then c + |generated|
              else MaxResetAttempts
  {
    if |generated| > 0 {
      var next := AfterResetAttempt(requests, userId, generated[0].0, generated[0].1, now);
      if RecentResets(requests, userId, now) < MaxResetAttempts {
        ResetCountsOnce(requests, userId, userId, generated[0].0, generated[0].1, now);
      }
      RateLimitOverAttempts(next, userId, generated[1..], now);
    }
  }

  /** Once all of a user's reset requests are older than the window, the count is
      zero and the next attempt is allowed. */
  lemma WindowElapsed(requests: seq<VerificationRequest>, userId: string, now: int)
    requires forall v :: v in requests && v.userId == userId && v.kind == PasswordReset ==>
               v.createdAt < now - ResetWindow
    ensures RecentResets(requests, userId, now) == 0
  {
    FilterNone(requests, IsRecentReset(userId, now - ResetWindow));
  }

  /** The answer once the reset request is stored: the link and the mail id, or
      InternalServerError carrying the mail provider's error name and message. */
  function ResetAnswer(mail: MailResult, link: ResetLink): (r: Result<ResetResponse>)
    ensures r.Ok? <==> mail.Sent?
    ensures r.Ok? ==> r.value.url == link && r.value.emailId == mail.id
    ensures r.Err? ==> r.error.InternalServerError?
  {
    match mail
    case Sent(id) =>
      Ok(ResetResponse("Password reset link sent successfully, please check your email", link, id))
    case Failed(name, message) =>
      Err(InternalServerError(name + " - " + message))
  }

  /** Adding a request with a fresh id and code for an existing user keeps the
      constraints of the requests table. */
  lemma AddRequestConsistent(users: seq<User>, requests: seq<VerificationRequest>, v: VerificationRequest)
    requires RequestsConsistent(users, requests)
    requires !HasKey(requests, RequestId, v.id) && !HasKey(requests, RequestCode, v.code)
    requires HasKey(users, UserId, v.userId)
    ensures RequestsConsistent(users, requests + [v])
  {
    UniqueKeysAppend(requests, RequestId, v);
    UniqueKeysAppend(requests, RequestCode, v);
  }

  /** `verificationRequest.create`: appends one request with a fresh id and code
      for an existing user. */
  method InsertRequest(store: Store, v: VerificationRequest)
    requires store.Valid()
    requires !HasKey(store.requests, RequestId, v.id) && !HasKey(store.requests, RequestCode, v.code)
    requires HasKey(store.users, UserId, v.userId)
    modifies store
    ensures store.Valid()
    ensures store.requests == old(store.requests) + [v]
    ensures store.users == old(store.users) && store.prefs == old(store.prefs)
    ensures store.sessions == old(store.sessions)
  {
    AddRequestConsistent(store.users, store.requests, v);
    store.requests := store.requests + [v];
  }

  /** `forgotPassword`: NotFound for an unknown email and Unauthorized when the
      user already has two reset requests in the trailing three minutes, both
      without writing; otherwise one reset request valid for an hour is added and
      the link embeds its code and expiry. A failed mail send then raises
      InternalServerError, but the request stays. */
  method ForgotPassword(store: Store, ext: Externals, email: string,
                        requestId: string, code: string, mail: MailResult, now: int)
    returns (r: Result<ResetResponse>)
    requires store.Valid()
    requires !HasKey(store.requests, RequestId, requestId)
    requires !HasKey(store.requests, RequestCode, code)
    modifies store
    ensures store.Valid()
    ensures store.users == old(store.users) && store.prefs == old(store.prefs)
    ensures store.sessions == old(store.sessions)
    ensures UserByEmail(store.users, email).None? ==>
              r == Err(NotFound("User not found")) && store.requests == old(store.requests)
    ensures UserByEmail(store.users, email).Some? ==>
      var user := UserByEmail(store.users, email).value;
      && store.requests == AfterResetAttempt(old(store.requests), user.id, requestId, code, now)
      && (RecentResets(old(store.requests), user.id, now) >= MaxResetAttempts ==>
            r == Err(Unauthorized("Too many requests, try again later")))
      && (RecentResets(old(store.requests), user.id, now) < MaxResetAttempts ==>
            r == ResetAnswer(mail, ResetLink(code, now + PasswordResetTtl)))
  {
    var found := UserByEmail(store.users, email);
    if found.None? {
      r := Err(NotFound("User not found"));
    } else {
      var user := found.value;
      var count := RecentResets(store.requests, user.id, now);
      if count >= MaxResetAttempts {
        r := Err(Unauthorized("Too many requests, try again later"));
      } else {
        var validCode := ResetRequest(user.id, requestId, code, now);
        HasKeyOf(store.users, UserId, user);
        InsertRequest(store, validCode);
        r := ResetAnswer(mail, ResetLink(validCode.code, now + PasswordResetTtl));
      }
    }
  }
}
