/** The user service (src/user/user.service.ts): account creation, the two user
    lookups and the session insert that follows a successful login. */
module UserService {
  import opened Base
  import opened Records
  import opened Seqs
  import opened Store

  /** The registration payload: display name, email and plain password. */
  datatype NewUser = NewUser(name: string, email: string, password: string)

  /** The public profile `create` returns. It has no password field at all. */
  datatype Profile = Profile(
    name: string,
    email: string,
    isEmailVerified: bool,
    userPreferences: Preferences)

  /** The preferences row a new account starts with. */
  function InitialPrefs(userId: string): (p: Preferences)
    ensures p.userId == userId
    ensures !p.enable2FA && p.twoFactorSecret == "" && p.emailNotification
  {
    Preferences(userId, false, "", true)
  }

  /** A new account starts MFA-consistent: 2FA off and no secret. */
  lemma InitialPrefsMfaConsistent(prefs: seq<Preferences>, userId: string)
    requires MfaConsistent(prefs)
    ensures MfaConsistent(prefs + [InitialPrefs(userId)])
  {
  }

  /** Inserting a user with a fresh id and email, its preferences row and one
      verification request for it keeps the database's constraints. */
  lemma InsertUserConsistent(users: seq<User>, prefs: seq<Preferences>,
                             sessions: seq<Session>, requests: seq<VerificationRequest>,
                             u: User, p: Preferences, v: VerificationRequest)
    requires UsersConsistent(users, prefs) && RequestsConsistent(users, requests)
    requires SessionsConsistent(users, sessions)
    requires !HasKey(users, UserId, u.id) && !HasKey(users, UserEmail, u.email)
    requires p.userId == u.id && v.userId == u.id
    requires !HasKey(requests, RequestId, v.id) && !HasKey(requests, RequestCode, v.code)
    ensures UsersConsistent(users + [u], prefs + [p])
    ensures RequestsConsistent(users + [u], requests + [v])
    ensures SessionsConsistent(users + [u], sessions)
  {
    UniqueKeysAppend(users, UserId, u);
    UniqueKeysAppend(users, UserEmail, u);
    NotHasKey(users, UserId, u.id);
    forall i | 0 <= i < |prefs| ensures PrefsUserId(prefs[i]) != u.id {
      assert prefs[i] in prefs;
      var j :| 0 <= j < |users| && UserId(users[j]) == prefs[i].userId;
      assert users[j] in users;
    }
    UniqueKeysAppend(prefs, PrefsUserId, p);
    UniqueKeysAppend(requests, RequestId, v);
    UniqueKeysAppend(requests, RequestCode, v);
    forall w | w in users + [u] ensures HasKey(prefs + [p], PrefsUserId, w.id) {
      HasKeyAppend(prefs, PrefsUserId, p, w.id);
    }
    forall q | q in prefs + [p] ensures HasKey(users + [u], UserId, q.userId) {
      HasKeyAppend(users, UserId, u, q.userId);
    }
    forall w | w in requests + [v] ensures HasKey(users + [u], UserId, w.userId) {
      HasKeyAppend(users, UserId, u, w.userId);
    }
    forall s | s in sessions ensures HasKey(users + [u], UserId, s.userId) {
      HasKeyAppend(users, UserId, u, s.userId);
    }
  }

  /** `create`: stores the user with the HASH of the password, one
      EMAIL_VERIFICATION request valid for 45 minutes and the initial preferences
      row, whatever the mail provider answered to the verification mail. */
  method Create(store: Store, ext: Externals, dto: NewUser,
                userId: string, requestId: string, code: string,
                mail: MailResult, now: int)
    returns (profile: Profile)
    requires store.Valid()
    requires !HasKey(store.users, UserId, userId)
    requires !HasKey(store.users, UserEmail, dto.email)
    requires !HasKey(store.requests, RequestId, requestId)
    requires !HasKey(store.requests, RequestCode, code)
    modifies store
    ensures store.Valid()
    ensures store.users == old(store.users) + [User(userId, dto.email, dto.name, ext.hash(dto.password), false)]
    ensures store.requests == old(store.requests) +
              [VerificationRequest(requestId, userId, code, EmailVerification, now, now + EmailVerificationTtl)]
    ensures store.prefs == old(store.prefs) + [InitialPrefs(userId)]
    ensures store.sessions == old(store.sessions)
    ensures MfaConsistent(old(store.prefs)) ==> MfaConsistent(store.prefs)
    ensures profile == Profile(dto.name, dto.email, false, InitialPrefs(userId))
  {
    var newUser := User(userId, dto.email, dto.name, ext.hash(dto.password), false);
    var verification := VerificationRequest(requestId, userId, code, EmailVerification,
                                            now, now + EmailVerificationTtl);
    var newPrefs := InitialPrefs(userId);
    InsertUserConsistent(store.users, store.prefs, store.sessions, store.requests, newUser, newPrefs, verification);
    store.users := store.users + [newUser];
    store.requests := store.requests + [verification];
    // The verification mail is sent here; its answer is not looked at.
    store.prefs := store.prefs + [newPrefs];
    profile := Profile(newUser.name, newUser.email, newUser.isEmailVerified, newPrefs);
  }

  /** `findByEmail`: the user with that email, if any; reads only. */
  function FindByEmail(store: Store, email: string): (r: Option<User>)
    reads store
    ensures r.Some? ==> r.value in store.users && r.value.email == email
    ensures r.None? <==> forall u :: u in store.users ==> u.email != email
  {
    var r := UserByEmail(store.users, email);
    assert r.None? ==> forall u :: u in store.users ==> u.email != email by {
      if r.None? { NotHasKey(store.users, UserEmail, email); }
    }
    r
  }

  /** `findOne`: the user with that id, if any; reads only. */
  function FindOne(store: Store, userId: string): (r: Option<User>)
    reads store
    ensures r.Some? ==> r.value in store.users && r.value.id == userId
    ensures r.None? <==> forall u :: u in store.users ==> u.id != userId
  {
    var r := UserById(store.users, userId);
    assert r.None? ==> forall u :: u in store.users ==> u.id != userId by {
      if r.None? { NotHasKey(store.users, UserId, userId); }
    }
    r
  }

  /** `createSessionAfterLogin`: inserts exactly one session for the user, created
      now and expiring in 30 days, and returns its id. The user must exist: the
      session row refers to it. */
  method CreateSessionAfterLogin(store: Store, userId: string, userAgent: Option<string>,
                                 sessionId: string, now: int)
    returns (id: string)
    requires store.Valid()
    requires HasKey(store.users, UserId, userId)
    requires !HasKey(store.sessions, SessionId, sessionId)
    modifies store
    ensures store.Valid()
    ensures id == sessionId
    ensures store.sessions == old(store.sessions) + [Session(sessionId, userId, userAgent, now, now + SessionTtl)]
    ensures store.users == old(store.users) && store.prefs == old(store.prefs)
    ensures store.requests == old(store.requests)
  {
    var session := Session(sessionId, userId, userAgent, now, now + SessionTtl);
    UniqueKeysAppend(store.sessions, SessionId, session);
    store.sessions := store.sessions + [session];
    id := session.id;
  }
}
