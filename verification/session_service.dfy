/** The session service (src/session/session.service.ts): the list of a user's
    live sessions, newest first; the owner of one session; and the deletion of a
    session by id and owner. */
module SessionService {
  import opened Base
  import opened Records
  import opened Seqs
  import opened Store

  /** A listed session: the selected columns, without `expiresAt`. */
  datatype SessionRow = SessionRow(id: string, userId: string, userAgent: Option<string>, createdAt: int)

  /** The owner of a session, as `getOneSession` returns it: no password. */
  datatype SessionUser = SessionUser(id: string, name: string, email: string, userPreferences: Preferences)

  function Row(s: Session): (r: SessionRow)
    ensures r.id == s.id && r.userId == s.userId && r.userAgent == s.userAgent && r.createdAt == s.createdAt
  {
    SessionRow(s.id, s.userId, s.userAgent, s.createdAt)
  }

  function RowId(r: SessionRow): string { r.id }

  /** The `where` of `getAllSessions`: the user's sessions that expire strictly
      after now. */
  function IsLive(userId: string, now: int): Session -> bool
  {
    (s: Session) => s.userId == userId && s.expiresAt > now
  }

  /** The selected columns of each row, in order. */
  function Rows(sessions: seq<Session>): (r: seq<SessionRow>)
    ensures |r| == |sessions|
    ensures forall i :: 0 <= i < |sessions| ==> r[i] == Row(sessions[i])
  {
    seq(|sessions|, i requires 0 <= i < |sessions| => Row(sessions[i]))
  }

  // ---------------------------------------------------------------------------
  // `orderBy: {createdAt: 'desc'}`

  ghost predicate NewestFirst(rows: seq<SessionRow>)
  {
    forall i, j :: 0 <= i < j < |rows| ==> rows[i].createdAt >= rows[j].createdAt
  }

  /** Places `x` before the first row that is not newer than it. */
  function Insert(x: SessionRow, rows: seq<SessionRow>): seq<SessionRow>
  {
    if |rows| == 0 then [x]
    else if x.createdAt >= rows[0].createdAt then [x] + rows
    else [rows[0]] + Insert(x, rows[1..])
  }


  lemma {:induction false} InsertPermutes(x: SessionRow, rows: seq<SessionRow>)
    ensures multiset(Insert(x, rows)) == multiset(rows) + multiset{x}
  {
    if |rows| > 0 && x.createdAt < rows[0].createdAt {
      InsertPermutes(x, rows[1..]);
      assert rows == [rows[0]] + rows[1..];
    }
  }

  lemma {:induction false} InsertSorted(x: SessionRow, rows: seq<SessionRow>)
    requires NewestFirst(rows)
    ensures NewestFirst(Insert(x, rows))
  {
    if |rows| > 0 && x.createdAt < rows[0].createdAt {
      var rest := rows[1..];
      assert NewestFirst(rest) by {
        forall i, j | 0 <= i < j < |rest| ensures rest[i].createdAt >= rest[j].createdAt {
          assert rest[i] == rows[i + 1] && rest[j] == rows[j + 1];
        }
      }
      InsertSorted(x, rest);
      InsertPermutes(x, rest);
      var ins := Insert(x, rest);
      forall k | 0 <= k < |ins| ensures rows[0].createdAt >= ins[k].createdAt {
        assert ins[k] in multiset(rest) + multiset{x};
        if ins[k] != x {
          var m :| 0 <= m < |rest| && rest[m] == ins[k];
          assert rest[m] == rows[m + 1];
        }
      }
      var r := [rows[0]] + ins;
      forall i, j | 0 <= i < j < |r| ensures r[i].createdAt >= r[j].createdAt {
        if i > 0 {
          assert r[i] == ins[i - 1] && r[j] == ins[j - 1];
        } else {
          assert r[j] == ins[j - 1];
        }
      }
    }
  }

  /** The rows newest first: the same rows, each as often. Rows created at the
      same instant keep table order. */
  function SortNewestFirst(rows: seq<SessionRow>): (r: seq<SessionRow>)
    ensures NewestFirst(r)
    ensures multiset(r) == multiset(rows)
  {
    if |rows| == 0 then []
    else
      var rest := SortNewestFirst(rows[1..]);
      InsertSorted(rows[0], rest);
      InsertPermutes(rows[0], rest);
      assert rows == [rows[0]] + rows[1..];
      Insert(rows[0], rest)
  }

  /** Distinct ids stay distinct when a row with a new id is inserted. */
  lemma {:induction false} InsertKeepsIdsUnique(x: SessionRow, rows: seq<SessionRow>)
    requires UniqueKeys(rows, RowId)
    requires forall y :: y in rows ==> y.id != x.id
    ensures UniqueKeys(Insert(x, rows), RowId)
  {
    if |rows| > 0 {
      var rest := rows[1..];
      assert UniqueKeys(rest, RowId) by {
        forall a, b | 0 <= a < b < |rest| ensures RowId(rest[a]) != RowId(rest[b]) {
          assert rest[a] == rows[a + 1] && rest[b] == rows[b + 1];
        }
      }
      if x.createdAt < rows[0].createdAt {
        InsertKeepsIdsUnique(x, rest);
        InsertPermutes(x, rest);
        var ins := Insert(x, rest);
        var r := [rows[0]] + ins;
        forall a, b | 0 <= a < b < |r| ensures RowId(r[a]) != RowId(r[b]) {
          if a == 0 {
            assert r[b] == ins[b - 1];
            assert ins[b - 1] in multiset(rest) + multiset{x};
            if ins[b - 1] != x {
              var m :| 0 <= m < |rest| && rest[m] == ins[b - 1];
              assert rest[m] == rows[m + 1];
            } else {
              assert rows[0] in rows;
            }
          } else {
            assert r[a] == ins[a - 1] && r[b] == ins[b - 1];
          }
        }
      } else {
        var r := [x] + rows;
        forall a, b | 0 <= a < b < |r| ensures RowId(r[a]) != RowId(r[b]) {
          if a == 0 {
            assert r[b] == rows[b - 1] && rows[b - 1] in rows;
          } else {
            assert r[a] == rows[a - 1] && r[b] == rows[b - 1];
          }
        }
      }
    }
  }

  /** Sorting keeps ids distinct. */
  lemma {:induction false} SortKeepsIdsUnique(rows: seq<SessionRow>)
    requires UniqueKeys(rows, RowId)
    ensures UniqueKeys(SortNewestFirst(rows), RowId)
  {
    if |rows| > 0 {
      var rest := rows[1..];
      assert UniqueKeys(rest, RowId) by {
        forall a, b | 0 <= a < b < |rest| ensures RowId(rest[a]) != RowId(rest[b]) {
          assert rest[a] == rows[a + 1] && rest[b] == rows[b + 1];
        }
      }
      SortKeepsIdsUnique(rest);
      forall y | y in SortNewestFirst(rest) ensures y.id != rows[0].id {
        assert y in multiset(rest);
        var m :| 0 <= m < |rest| && rest[m] == y;
        assert rest[m] == rows[m + 1];
      }
      InsertKeepsIdsUnique(rows[0], SortNewestFirst(rest));
    }
  }

  // ---------------------------------------------------------------------------
  // The service

  /** `getAllSessions`: the selected columns of the user's sessions that expire
      strictly after now, newest first. It reads only. */
  function GetAllSessions(store: Store, userId: string, now: int): (r: seq<SessionRow>)
    reads store
    ensures NewestFirst(r)
    ensures multiset(r) == multiset(Rows(Filter(store.sessions, IsLive(userId, now))))
    ensures forall x :: x in r <==>
              exists s :: s in store.sessions && s.userId == userId && s.expiresAt > now && x == Row(s)
  {
    var live := Filter(store.sessions, IsLive(userId, now));
    var rows := Rows(live);
    var r := SortNewestFirst(rows);
    assert forall x :: x in r <==> x in rows by {
      forall x ensures x in r <==> x in rows {
        assert x in r <==> x in multiset(r);
        assert x in rows <==> x in multiset(rows);
      }
    }
    assert forall x :: x in rows <==>
             exists s :: s in store.sessions && s.userId == userId && s.expiresAt > now && x == Row(s) by {
      forall x ensures x in rows <==>
               exists s :: s in store.sessions && s.userId == userId && s.expiresAt > now && x == Row(s) {
        if x in rows {
          var i :| 0 <= i < |rows| && rows[i] == x;
          assert live[i] in live;
        }
        if exists s :: s in store.sessions && s.userId == userId && s.expiresAt > now && x == Row(s) {
          var s :| s in store.sessions && s.userId == userId && s.expiresAt > now && x == Row(s);
          assert s in live;
          var i :| 0 <= i < |live| && live[i] == s;
          assert rows[i] == x;
        }
      }
    }
    r
  }

  /** The listed rows have distinct ids, as the table's sessions do. */
  lemma ListedIdsUnique(store: Store, userId: string, now: int)
    requires store.Valid()
    ensures UniqueKeys(GetAllSessions(store, userId, now), RowId)
  {
    var live := Filter(store.sessions, IsLive(userId, now));
    UniqueKeysFilter(store.sessions, SessionId, IsLive(userId, now));
    var rows := Rows(live);
    assert UniqueKeys(rows, RowId) by {
      forall a, b | 0 <= a < b < |rows| ensures RowId(rows[a]) != RowId(rows[b]) {
        assert SessionId(live[a]) != SessionId(live[b]);
      }
    }
    SortKeepsIdsUnique(rows);
  }

  /** The answer the framework gives to an exception that is not an HTTP
      exception (here the TypeError of reading `user` off a null session). */
  const InternalError := InternalServerError("Internal server error")

  /** `getOneSession`: the id, name, email and preferences of the user owning
      the session. The lookup is dereferenced without a check, so an unknown id
      (a session deleted while its access token is still valid, say) ends in an
      internal server error. */
  function GetOneSession(store: Store, sessionId: string): (r: Result<SessionUser>)
    reads store
    requires store.Valid()
    ensures r.Err? <==> !exists s :: s in store.sessions && s.id == sessionId
    ensures r.Err? ==> r.error == InternalError
    ensures r.Ok? ==> exists s, u :: s in store.sessions && s.id == sessionId && u in store.users &&
                                     u.id == s.userId && r.value.id == u.id && r.value.name == u.name &&
                                     r.value.email == u.email
    ensures r.Ok? ==> r.value.userPreferences in store.prefs && r.value.userPreferences.userId == r.value.id
  {
    match Find(store.sessions, (s: Session) => s.id == sessionId)
    case None => Err(InternalError)
    case Some(session) =>
      // Every session belongs to a user, and every user has a preferences row.
      assert session in store.sessions;
      var user := UserById(store.users, session.userId).value;
      var prefs := PrefsOf(store.prefs, user.id).value;
      Ok(SessionUser(user.id, user.name, user.email, prefs))
  }

  /** `deleteSession`: deletes the session when one has both that id and that
      owner, and answers with a message; otherwise the database reports that no
      record matched and nothing is deleted. Every other session stays, in
      order. */
  method DeleteSession(store: Store, id: string, userId: string) returns (r: Result<string>)
    requires store.Valid()
    modifies store
    ensures store.Valid()
    ensures store.users == old(store.users) && store.prefs == old(store.prefs)
    ensures store.requests == old(store.requests)
    ensures r.Ok? <==> exists s :: s in old(store.sessions) && s.id == id && s.userId == userId
    ensures r.Err? ==> r.error == RecordNotFound && store.sessions == old(store.sessions)
    ensures r.Ok? ==>
      && r.value == "Session deleted successfully"
      && store.sessions == RemoveKey(old(store.sessions), SessionId, id)
      && exists i :: 0 <= i < |old(store.sessions)| && old(store.sessions)[i].id == id &&
                     store.sessions == old(store.sessions)[..i] + old(store.sessions)[i + 1..]
  {
    var found := Find(store.sessions, (s: Session) => s.id == id && s.userId == userId);
    if found.None? {
      return Err(RecordNotFound);
    }
    var i :| 0 <= i < |store.sessions| && store.sessions[i] == found.value;
    RemoveUnique(store.sessions, SessionId, i);
    UniqueKeysRemoveKey(store.sessions, SessionId, id, SessionId);
    store.sessions := RemoveKey(store.sessions, SessionId, id);
    r := Ok("Session deleted successfully");
  }
}
