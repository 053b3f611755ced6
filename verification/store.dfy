/** The database as the services see it: four tables, the lookups and writes the
    services issue against them, and the constraints the database keeps (unique
    ids, emails and codes; one preferences row per user; every verification
    request and every session owned by a user). */
module Store {
  import opened Base
  import opened Records
  import opened Seqs

  /** Lookup of a user by its unique email (`user.findUnique({where: {email}})`). */
  function UserByEmail(users: seq<User>, email: string): (r: Option<User>)
    ensures r.Some? ==> r.value in users && r.value.email == email
    ensures r.None? <==> !HasKey(users, UserEmail, email)
  {
    Find(users, (u: User) => u.email == email)
  }

  /** Lookup of a user by its id (`user.findUnique({where: {id}})`). */
  function UserById(users: seq<User>, id: string): (r: Option<User>)
    ensures r.Some? ==> r.value in users && r.value.id == id
    ensures r.None? <==> !HasKey(users, UserId, id)
  {
    Find(users, (u: User) => u.id == id)
  }

  /** Lookup of the preferences row of a user. */
  function PrefsOf(prefs: seq<Preferences>, userId: string): (r: Option<Preferences>)
    ensures r.Some? ==> r.value in prefs && r.value.userId == userId
    ensures r.None? <==> !HasKey(prefs, PrefsUserId, userId)
  {
    Find(prefs, (p: Preferences) => p.userId == userId)
  }

  /** `userPreferences.update({where: {userId: p.userId}, data})`: the row of that
      user is replaced by `p`. */
  function SetPrefs(prefs: seq<Preferences>, p: Preferences): (r: seq<Preferences>)
    ensures |r| == |prefs|
    ensures forall i :: 0 <= i < |prefs| ==>
              r[i] == if prefs[i].userId == p.userId then p else prefs[i]
  {
    Update(prefs, (q: Preferences) => q.userId == p.userId, (q: Preferences) => p)
  }

  /** After `SetPrefs` the lookup of that user finds exactly `p`, when the user
      had a row. */
  lemma SetPrefsThenLookup(prefs: seq<Preferences>, p: Preferences)
    requires HasKey(prefs, PrefsUserId, p.userId)
    ensures PrefsOf(SetPrefs(prefs, p), p.userId) == Some(p)
  {
    var r := SetPrefs(prefs, p);
    var i :| 0 <= i < |prefs| && PrefsUserId(prefs[i]) == p.userId;
    assert PrefsUserId(r[i]) == p.userId;
    var m :| 0 <= m < |r| && r[m] == PrefsOf(r, p.userId).value;
    assert r[m] == if prefs[m].userId == p.userId then p else prefs[m];
  }

  // The database's constraints, one group of tables at a time.

  /** Users have unique ids and emails, and users and preferences are 1:1. */
  ghost predicate UsersConsistent(users: seq<User>, prefs: seq<Preferences>)
  {
    && UniqueKeys(users, UserId)
    && UniqueKeys(users, UserEmail)
    && UniqueKeys(prefs, PrefsUserId)
    && (forall u :: u in users ==> HasKey(prefs, PrefsUserId, u.id))
    && (forall p :: p in prefs ==> HasKey(users, UserId, p.userId))
  }

  /** Verification requests have unique ids and codes and each names a user. */
  ghost predicate RequestsConsistent(users: seq<User>, requests: seq<VerificationRequest>)
  {
    && UniqueKeys(requests, RequestId)
    && UniqueKeys(requests, RequestCode)
    && (forall v :: v in requests ==> HasKey(users, UserId, v.userId))
  }

  /** Sessions have unique ids and each belongs to a user. */
  ghost predicate SessionsConsistent(users: seq<User>, sessions: seq<Session>)
  {
    && UniqueKeys(sessions, SessionId)
    && (forall s :: s in sessions ==> HasKey(users, UserId, s.userId))
  }

  /** The invariant the MFA flow is meant to keep: 2FA is only enabled together
      with a stored secret (a secret may be stored while 2FA is still off). */
  ghost predicate MfaConsistent(prefs: seq<Preferences>)
  {
    forall p :: p in prefs && p.enable2FA ==> p.twoFactorSecret != ""
  }

  /** Replacing the preferences row of a user that has one keeps users and
      preferences 1:1; and the MFA invariant holds afterwards when it held before
      and the new row keeps it. */
  lemma SetPrefsConsistent(users: seq<User>, prefs: seq<Preferences>, p: Preferences)
    requires UsersConsistent(users, prefs)
    ensures UsersConsistent(users, SetPrefs(prefs, p))
    ensures MfaConsistent(prefs) && (p.enable2FA ==> p.twoFactorSecret != "") ==>
              MfaConsistent(SetPrefs(prefs, p))
  {
    var r := SetPrefs(prefs, p);
    forall i, j | 0 <= i < j < |r| ensures PrefsUserId(r[i]) != PrefsUserId(r[j]) {
      assert PrefsUserId(prefs[i]) != PrefsUserId(prefs[j]);
    }
    forall u | u in users ensures HasKey(r, PrefsUserId, u.id) {
      var i :| 0 <= i < |prefs| && PrefsUserId(prefs[i]) == u.id;
      assert PrefsUserId(r[i]) == u.id;
    }
    forall q | q in r ensures HasKey(users, UserId, q.userId) {
      var i :| 0 <= i < |r| && r[i] == q;
      assert prefs[i] in prefs;
    }
    if MfaConsistent(prefs) && (p.enable2FA ==> p.twoFactorSecret != "") {
      forall q | q in r && q.enable2FA ensures q.twoFactorSecret != "" {
        var i :| 0 <= i < |r| && r[i] == q;
        assert prefs[i] in prefs;
      }
    }
  }

  /** The in-memory database: one sequence of rows per table. */
  class Store {
    var users: seq<User>
    var prefs: seq<Preferences>
    var sessions: seq<Session>
    var requests: seq<VerificationRequest>

    ghost predicate Valid()
      reads this
    {
      && UsersConsistent(users, prefs)
      && RequestsConsistent(users, requests)
      && SessionsConsistent(users, sessions)
    }

    constructor ()
      ensures Valid() && MfaConsistent(prefs)
      ensures users == [] && prefs == [] && sessions == [] && requests == []
    {
      users, prefs, sessions, requests := [], [], [], [];
    }
  }
}
