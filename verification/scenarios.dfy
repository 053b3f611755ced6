/** Properties that span several calls: a login's access token in the cookie
    passes the guard; a refreshed token carries no session, so the "current
    session" endpoint answers 404; repeated MFA setup re-displays one secret; an
    email code works once; a deleted current session answers 500. */
module Scenarios {
  import opened Base
  import opened Records
  import opened Seqs
  import opened Store
  import opened AuthService
  import opened MfaService
  import opened JwtAuthGuard
  import opened SessionController

  /** The access token `login` issues, sent back as the `accessToken` cookie
      within its lifetime, passes the guard, which then sees the user and the
      session the login created. */
  lemma LoginTokenPassesGuard(ext: Externals, userId: string, sessionId: string,
                              issued: int, accessTtl: int, now: int)
    requires JwtRoundTrip(ext, DefaultKey, accessTtl) && CookieSafeTokens(ext)
    requires issued <= now < issued + accessTtl
    ensures var token := GenerateTokens(ext, userId, Some(sessionId), issued).accessToken;
            Authenticate(ext, ExtractTokenFromHeader(Some("accessToken=" + token)), now)
              == Ok(AccessClaims(userId, Some(sessionId)))
  {
    var token := GenerateTokens(ext, userId, Some(sessionId), issued).accessToken;
    assert token != "" && '=' !in token;
    SingleCookie("accessToken", token);
    assert "accessToken" + "=" + token == "accessToken=" + token;
    assert ext.verifyJwt(token, DefaultKey, now) == Some(AccessClaims(userId, Some(sessionId)));
  }

  /** The access token `refreshToken` issues passes the guard too, but without
      a session id, so `getSession` on that request answers 404. */
  lemma RefreshedTokenHasNoCurrentSession(store: Store, ext: Externals, userId: string, name: string,
                                          issued: int, accessTtl: int, now: int)
    requires store.Valid()
    requires JwtRoundTrip(ext, DefaultKey, accessTtl) && CookieSafeTokens(ext)
    requires issued <= now < issued + accessTtl
    ensures var token := RefreshToken(ext, userId, name, issued).accessToken;
            var d := Authenticate(ext, ExtractTokenFromHeader(Some("accessToken=" + token)), now);
            && d == Ok(AccessClaims(userId, None))
            && GetSession(store, d.value.sessionId).status == StatusNotFound
  {
    var token := RefreshToken(ext, userId, name, issued).accessToken;
    assert token != "" && '=' !in token;
    SingleCookie("accessToken", token);
    assert "accessToken" + "=" + token == "accessToken=" + token;
    RefreshedTokenHasNoSession(ext, userId, name, issued, accessTtl, now);
    assert ext.verifyJwt(token, DefaultKey, now) == Some(AccessClaims(userId, None));
  }

  /** Two setups in a row for a user with 2FA off answer with the same secret:
      the first one's, whatever the second generates. */
  method SetupTwice(store: Store, ext: Externals, userId: string, first: string, second: string)
    returns (a: Result<SetupResponse>, b: Result<SetupResponse>)
    requires store.Valid()
    requires first != "" && second != ""
    requires HasKey(store.users, UserId, userId)
    requires PrefsOf(store.prefs, userId).Some? && !PrefsOf(store.prefs, userId).value.enable2FA
    modifies store
    ensures a.Ok? && b.Ok? && a.value.secret == b.value.secret
    ensures a.value.secret == Setup(PrefsOf(old(store.prefs), userId).value, first).twoFactorSecret
  {
    var p := PrefsOf(store.prefs, userId).value;
    a := GenerateMfaSetup(store, ext, userId, first);
    var q := PrefsOf(store.prefs, userId).value;
    assert q == Setup(p, first);
    b := GenerateMfaSetup(store, ext, userId, second);
  }

  /** An email code verifies once: the same code a second time is refused. */
  method VerifyEmailTwice(store: Store, code: string, now: int, later: int)
    returns (a: Result<User>, b: Result<User>)
    requires store.Valid()
    modifies store
    ensures a.Ok? ==> b == Err(Unauthorized("Invalid or expired code"))
  {
    ghost var before := store.requests;
    a := VerifyEmail(store, code, now);
    if a.Ok? {
      VerifiedCodeIsSpent(before, code, now, later);
    }
    b := VerifyEmail(store, code, later);
  }

  /** A user who deletes their current session and then asks for it with the
      same, still valid, access token gets the internal server error: the token
      names a session that is gone. */
  method RemoveThenGetSession(store: Store, id: string, userId: string)
    returns (removed: Result<string>, answer: SessionAnswer)
    requires store.Valid()
    requires id != ""
    modifies store
    ensures removed.Ok? <==> exists s :: s in old(store.sessions) && s.id == id && s.userId == userId
    ensures removed.Ok? ==> answer.status == StatusInternalServerError
  {
    removed := Remove(store, id, userId);
    answer := GetSession(store, Some(id));
  }
}
