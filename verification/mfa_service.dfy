/** The MFA service (src/mfa/mfa.service.ts): the preferences row of a user moves
    between "no secret", "secret stored but 2FA off" and "2FA on" through setup,
    verification and revocation, and an MFA login checks a TOTP code against the
    stored secret before it opens a session. */
module MfaService {
  import opened Base
  import opened Records
  import opened Seqs
  import opened Store
  import opened UserService
  import opened AuthService

  /** A user together with its preferences row, as
      `user.findUnique({where, include: {userPreferences: true}})` returns it. */
  datatype Account = Account(user: User, prefs: Preferences)

  /** What `generateMfaSetup` returns: the secret and the QR image of its
      provisioning URI. */
  datatype SetupResponse = SetupResponse(message: string, secret: string, qrImageUrl: string)

  /** The `userPreferences` part of an answer: either only the flag, or the whole
      row read back after the update. */
  datatype PrefsView = EnableFlag(enable2FA: bool) | FullRow(row: Preferences)

  datatype MfaResponse = MfaResponse(message: string, userPreferences: PrefsView)

  /** The three states a preferences row goes through in the MFA flow. A row
      with 2FA on counts as Enabled whatever its secret. */
  datatype MfaState = Unenrolled | Pending | Enabled

  function StateOf(p: Preferences): MfaState
  {
    if p.enable2FA then Enabled
    else if p.twoFactorSecret == "" then Unenrolled
    else Pending
  }

  // ---------------------------------------------------------------------------
  // Lookups

  /** The account with that user id. */
  function AccountById(users: seq<User>, prefs: seq<Preferences>, userId: string): (r: Option<Account>)
    ensures r.Some? ==> r.value.user in users && r.value.user.id == userId
    ensures r.Some? ==> r.value.prefs in prefs && r.value.prefs.userId == userId
    ensures r.Some? ==> PrefsOf(prefs, userId) == Some(r.value.prefs)
    ensures UsersConsistent(users, prefs) ==> (r.None? <==> !HasKey(users, UserId, userId))
  {
    match UserById(users, userId)
    case None => None
    case Some(u) =>
      match PrefsOf(prefs, u.id)
      case None => None
      case Some(p) => Some(Account(u, p))
  }

  /** The account with that email. */
  function AccountByEmail(users: seq<User>, prefs: seq<Preferences>, email: string): (r: Option<Account>)
    ensures r.Some? ==> r.value.user in users && r.value.user.email == email
    ensures r.Some? ==> r.value.prefs in prefs && r.value.prefs.userId == r.value.user.id
    ensures r.Some? ==> PrefsOf(prefs, r.value.user.id) == Some(r.value.prefs)
    ensures UsersConsistent(users, prefs) ==> (r.None? <==> !HasKey(users, UserEmail, email))
  {
    match UserByEmail(users, email)
    case None => None
    case Some(u) =>
      match PrefsOf(prefs, u.id)
      case None => None
      case Some(p) => Some(Account(u, p))
  }

  // ---------------------------------------------------------------------------
  // The transitions of a preferences row

  /** Setup: a row without a secret gets `generated`; a row with one keeps it.
      Only the secret can change. */
  function Setup(p: Preferences, generated: string): (r: Preferences)
    ensures r.(twoFactorSecret := p.twoFactorSecret) == p
    ensures p.twoFactorSecret != "" ==> r == p
    ensures p.twoFactorSecret == "" ==> r.twoFactorSecret == generated
  {
    if p.twoFactorSecret == "" then p.(twoFactorSecret := generated) else p
  }

  /** Verification: 2FA is switched on; the secret is left as it is. */
  function Enable(p: Preferences): (r: Preferences)
    ensures r.enable2FA
    ensures r.(enable2FA := p.enable2FA) == p
  {
    p.(enable2FA := true)
  }

  /** Revocation: a row with 2FA off is left alone; otherwise 2FA is switched off
      and the secret cleared. */
  function Revoke(p: Preferences): (r: Preferences)
    ensures !r.enable2FA
    ensures p.enable2FA ==> r.twoFactorSecret == ""
    ensures !p.enable2FA ==> r == p
    ensures r.userId == p.userId && r.emailNotification == p.emailNotification
  {
    if !p.enable2FA then p else p.(enable2FA := false, twoFactorSecret := "")
  }

  /** The guard of `loginWithMFA`: it refuses only when 2FA is off AND no secret
      is stored. */
  function MfaLoginAllowed(p: Preferences): (allowed: bool)
    ensures allowed <==> p.enable2FA || p.twoFactorSecret != ""
  {
    !(!p.enable2FA && p.twoFactorSecret == "")
  }

  /** Setup moves a row with 2FA off to Pending, with the secret it already had
      or else the generated one, and touches nothing else. */
  lemma SetupTransition(p: Preferences, generated: string)
    requires !p.enable2FA && generated != ""
    ensures StateOf(Setup(p, generated)) == Pending
    ensures Setup(p, generated).twoFactorSecret ==
              if p.twoFactorSecret == "" then generated else p.twoFactorSecret
    ensures Setup(p, generated).userId == p.userId
    ensures Setup(p, generated).emailNotification == p.emailNotification
  {
  }

  /** Repeated setup re-displays the secret of the first: whatever a second call
      generates, the row stays as the first call left it. */
  lemma SetupIdempotent(p: Preferences, first: string, second: string)
    requires first != ""
    ensures Setup(Setup(p, first), second) == Setup(p, first)
  {
  }

  /** Revocation leaves 2FA off, and applying it twice is applying it once. */
  lemma RevokeIdempotent(p: Preferences)
    ensures !Revoke(p).enable2FA
    ensures Revoke(Revoke(p)) == Revoke(p)
    ensures p.enable2FA ==> StateOf(Revoke(p)) == Unenrolled
    ensures !p.enable2FA ==> Revoke(p) == p
  {
  }

  /** The guard of `loginWithMFA` admits exactly the rows that are not
      Unenrolled, so a Pending row (secret stored, 2FA never confirmed) passes. */
  lemma GuardAdmitsPending(p: Preferences)
    ensures MfaLoginAllowed(p) <==> StateOf(p) != Unenrolled
    ensures StateOf(p) == Pending ==> MfaLoginAllowed(p)
  {
  }

  /** After revoking a row with 2FA on, MFA login is refused; after revoking a
      Pending row (a no-op), it is still admitted. */
  lemma RevokeThenLogin(p: Preferences)
    ensures p.enable2FA ==> !MfaLoginAllowed(Revoke(p))
    ensures StateOf(p) == Pending ==> MfaLoginAllowed(Revoke(p))
  {
  }

  /** Verification as written can switch 2FA on for a row with no secret: the
      stored row then breaks "2FA on implies a secret is stored". */
  lemma {:induction false} EnableWithoutSecret(prefs: seq<Preferences>, p: Preferences)
    requires p in prefs && p.twoFactorSecret == ""
    ensures !MfaConsistent(SetPrefs(prefs, Enable(p)))
  {
    var i :| 0 <= i < |prefs| && prefs[i] == p;
    var r := SetPrefs(prefs, Enable(p));
    assert r[i] == Enable(p) && r[i] in r;
  }

  // ---------------------------------------------------------------------------
  // The service

  /** `userPreferences.update({where: {userId}})` on a user that has a row. */
  method UpdatePrefs(store: Store, p: Preferences)
    requires store.Valid()
    requires HasKey(store.prefs, PrefsUserId, p.userId)
    modifies store
    ensures store.Valid()
    ensures store.prefs == SetPrefs(old(store.prefs), p)
    ensures store.users == old(store.users) && store.sessions == old(store.sessions)
    ensures store.requests == old(store.requests)
    ensures MfaConsistent(old(store.prefs)) && (p.enable2FA ==> p.twoFactorSecret != "") ==>
              MfaConsistent(store.prefs)
  {
    SetPrefsConsistent(store.users, store.prefs, p);
    store.prefs := SetPrefs(store.prefs, p);
  }

  /** `generateMfaSetup`: NotFound for an unknown user or when 2FA is already on,
      without writing. Otherwise the stored secret is returned, or, when none is
      stored, the generated one is stored first (2FA stays off); the answer
      carries the QR image of the secret's provisioning URI. */
  method GenerateMfaSetup(store: Store, ext: Externals, userId: string, generated: string)
    returns (r: Result<SetupResponse>)
    requires store.Valid()
    requires generated != ""
    modifies store
    ensures store.Valid()
    ensures store.users == old(store.users) && store.sessions == old(store.sessions)
    ensures store.requests == old(store.requests)
    ensures MfaConsistent(old(store.prefs)) ==> MfaConsistent(store.prefs)
    ensures match AccountById(old(store.users), old(store.prefs), userId)
      case None => r == Err(NotFound("User not found")) && store.prefs == old(store.prefs)
      case Some(a) =>
        if a.prefs.enable2FA then
          r == Err(NotFound("Mfa already enabled")) && store.prefs == old(store.prefs)
        else
          var secret := Setup(a.prefs, generated).twoFactorSecret;
          && r == Ok(SetupResponse("Scan the QR code or use the setup key.", secret,
                                   ext.qrDataUrl(ext.otpauthUrl(secret, a.user.name))))
          && store.prefs == (if a.prefs.twoFactorSecret == "" then SetPrefs(old(store.prefs), Setup(a.prefs, generated))
                             else old(store.prefs))
          && PrefsOf(store.prefs, userId) == Some(Setup(a.prefs, generated))
  {
    var found := AccountById(store.users, store.prefs, userId);
    if found.None? {
      return Err(NotFound("User not found"));
    }
    var user, prefs := found.value.user, found.value.prefs;
    if prefs.enable2FA {
      return Err(NotFound("Mfa already enabled"));
    }
    var secretKey := prefs.twoFactorSecret;
    if secretKey == "" {
      secretKey := generated;
      HasKeyOf(store.prefs, PrefsUserId, prefs);
      UpdatePrefs(store, prefs.(twoFactorSecret := secretKey));
      SetPrefsThenLookup(old(store.prefs), prefs.(twoFactorSecret := secretKey));
    }
    var url := ext.otpauthUrl(secretKey, user.name);
    r := Ok(SetupResponse("Scan the QR code or use the setup key.", secretKey, ext.qrDataUrl(url)));
  }

  /** What a TOTP library promises: the code it computes for a secret at a time
      passes its own check for that secret at that time. */
  ghost predicate TotpAcceptsOwnCodes(ext: Externals)
  {
    forall secret, t :: ext.totpVerify(secret, ext.totp(secret, t), t)
  }

  /** The check `verifyMFASetup` performs: the TOTP code it computes itself from
      the submitted secret, verified against that same secret. The submitted code
      plays no part, and under a library that keeps its promise the check always
      passes, whatever secret is submitted. */
  function SelfCheck(ext: Externals, secretKey: string, now: int): (ok: bool)
    ensures TotpAcceptsOwnCodes(ext) ==> ok
  {
    ext.totpVerify(secretKey, ext.totp(secretKey, now), now)
  }

  /** `verifyMFASetup` as written: NotFound for an unknown user; "MFA already
      enabled" without writing when 2FA is on; otherwise the outcome depends only
      on the self-check of the submitted secret, never on the submitted `code`
      (it appears nowhere below). On success 2FA is switched on, the stored secret
      is left as it is, and the row read back is returned. */
  method VerifyMfaSetup(store: Store, ext: Externals, userId: string, code: string,
                        secretKey: string, now: int)
    returns (r: Result<MfaResponse>)
    requires store.Valid()
    modifies store
    ensures store.Valid()
    ensures store.users == old(store.users) && store.sessions == old(store.sessions)
    ensures store.requests == old(store.requests)
    ensures match AccountById(old(store.users), old(store.prefs), userId)
      case None => r == Err(NotFound("User not found")) && store.prefs == old(store.prefs)
      case Some(a) =>
        if a.prefs.enable2FA then
          r == Ok(MfaResponse("MFA already enabled", EnableFlag(true))) && store.prefs == old(store.prefs)
        else if !SelfCheck(ext, secretKey, now) then
          r == Err(NotFound("Invalid code, please try again")) && store.prefs == old(store.prefs)
        else
          && r == Ok(MfaResponse("MFA enabled successfully", FullRow(Enable(a.prefs))))
          && store.prefs == SetPrefs(old(store.prefs), Enable(a.prefs))
          && PrefsOf(store.prefs, userId) == Some(Enable(a.prefs))
          && (MfaConsistent(old(store.prefs)) && a.prefs.twoFactorSecret != "" ==> MfaConsistent(store.prefs))
  {
    var found := AccountById(store.users, store.prefs, userId);
    if found.None? {
      return Err(NotFound("User not found"));
    }
    var prefs := found.value.prefs;
    if prefs.enable2FA {
      return Ok(MfaResponse("MFA already enabled", EnableFlag(prefs.enable2FA)));
    }
    var tokenCode := ext.totp(secretKey, now);
    var isValid := ext.totpVerify(secretKey, tokenCode, now);
    if !isValid {
      return Err(NotFound("Invalid code, please try again"));
    }
    HasKeyOf(store.prefs, PrefsUserId, prefs);
    UpdatePrefs(store, Enable(prefs));
    SetPrefsThenLookup(old(store.prefs), Enable(prefs));
    var updated := PrefsOf(store.prefs, userId);
    r := Ok(MfaResponse("MFA enabled successfully", FullRow(updated.value)));
  }

  /** `revokeMFASetup`: Unauthorized for an unknown user; "MFA already disabled"
      without writing when 2FA is off (a stored pending secret stays); otherwise
      2FA is switched off and the secret cleared. */
  method RevokeMfaSetup(store: Store, userId: string) returns (r: Result<MfaResponse>)
    requires store.Valid()
    modifies store
    ensures store.Valid()
    ensures store.users == old(store.users) && store.sessions == old(store.sessions)
    ensures store.requests == old(store.requests)
    ensures MfaConsistent(old(store.prefs)) ==> MfaConsistent(store.prefs)
    ensures match AccountById(old(store.users), old(store.prefs), userId)
      case None => r == Err(Unauthorized("User not unauthorized")) && store.prefs == old(store.prefs)
      case Some(a) =>
        if !a.prefs.enable2FA then
          r == Ok(MfaResponse("MFA already disabled", EnableFlag(false))) && store.prefs == old(store.prefs)
        else
          && r == Ok(MfaResponse("MFA revoke successfully", EnableFlag(false)))
          && store.prefs == SetPrefs(old(store.prefs), Revoke(a.prefs))
          && PrefsOf(store.prefs, userId) == Some(Revoke(a.prefs))
  {
    var found := AccountById(store.users, store.prefs, userId);
    if found.None? {
      return Err(Unauthorized("User not unauthorized"));
    }
    var prefs := found.value.prefs;
    if !prefs.enable2FA {
      return Ok(MfaResponse("MFA already disabled", EnableFlag(prefs.enable2FA)));
    }
    var cleared := prefs.(enable2FA := false, twoFactorSecret := "");
    HasKeyOf(store.prefs, PrefsUserId, prefs);
    UpdatePrefs(store, cleared);
    SetPrefsThenLookup(old(store.prefs), cleared);
    r := Ok(MfaResponse("MFA revoke successfully", EnableFlag(cleared.enable2FA)));
  }

  /** `loginWithMFA`: NotFound for an unknown email, for a row that is neither
      enabled nor holds a secret, and for a code the TOTP check of the stored
      secret rejects; in all three cases no session is created. Otherwise exactly
      one 30-day session is created and the answer carries a token pair bound to
      it. */
  method LoginWithMfa(store: Store, ext: Externals, email: string, code: string,
                      userAgent: Option<string>, sessionId: string, now: int)
    returns (r: Result<LoginResult>)
    requires store.Valid()
    requires !HasKey(store.sessions, SessionId, sessionId)
    modifies store
    ensures store.Valid()
    ensures store.users == old(store.users) && store.prefs == old(store.prefs)
    ensures store.requests == old(store.requests)
    ensures r.Err? ==> store.sessions == old(store.sessions)
    ensures match AccountByEmail(old(store.users), old(store.prefs), email)
      case None => r == Err(NotFound("User not found"))
      case Some(a) =>
        if !MfaLoginAllowed(a.prefs) then r == Err(NotFound("MFA not enabled"))
        else if !ext.totpVerify(a.prefs.twoFactorSecret, code, now) then
          r == Err(NotFound("Invalid code, please try again"))
        else
          var pair := GenerateTokens(ext, a.user.id, Some(sessionId), now);
          && store.sessions == old(store.sessions) + [Session(sessionId, a.user.id, userAgent, now, now + SessionTtl)]
          && r == Ok(LoginResult(pair.accessToken, pair.refreshToken, sessionId,
                                 LoginUser(a.user.id, Some(a.user.name), userAgent)))
  {
    var found := AccountByEmail(store.users, store.prefs, email);
    if found.None? {
      return Err(NotFound("User not found"));
    }
    var user, prefs := found.value.user, found.value.prefs;
    if !prefs.enable2FA && prefs.twoFactorSecret == "" {
      return Err(NotFound("MFA not enabled"));
    }
    var isValid := ext.totpVerify(prefs.twoFactorSecret, code, now);
    if !isValid {
      return Err(NotFound("Invalid code, please try again"));
    }
    HasKeyOf(store.users, UserId, user);
    var sid := CreateSessionAfterLogin(store, user.id, userAgent, sessionId, now);
    var pair := GenerateTokens(ext, user.id, Some(sid), now);
    r := Ok(LoginResult(pair.accessToken, pair.refreshToken, sid, LoginUser(user.id, Some(user.name), userAgent)));
  }
}
