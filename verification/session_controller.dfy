/** The session controller (src/session/session.controller.ts): the session list
    with the caller's own session marked, the "current session" endpoint, and
    deletion. The caller's `userId` and `sessionId` are what the guard put on the
    request. */
module SessionController {
  import opened Base
  import opened Records
  import opened Seqs
  import opened Store
  import opened SessionService

  // HTTP status codes (src/auth/config/http.config.ts is not part of this model;
  // the standard values are used).
  const StatusOk := 200
  const StatusNotFound := 404
  const StatusInternalServerError := 500

  /** A listed session. `isCurrent` false stands for the absent field. */
  datatype ListedSession = ListedSession(row: SessionRow, isCurrent: bool)

  datatype ListAnswer = ListAnswer(status: int, message: string, sessions: seq<ListedSession>)

  /** What `getSession` answers; `session` is None where the JSON has it undefined. */
  datatype SessionAnswer = SessionAnswer(status: int, message: string, session: Option<SessionUser>)

  /** The `map` of `getAllSessions`: every row copied, in order, with the one
      whose id equals the request's session id marked current. A request without
      a session id marks none. */
  function MarkCurrent(rows: seq<SessionRow>, sessionId: Option<string>): (r: seq<ListedSession>)
    ensures |r| == |rows|
    ensures forall i :: 0 <= i < |rows| ==> r[i].row == rows[i]
    ensures forall i :: 0 <= i < |rows| ==> (r[i].isCurrent <==> sessionId == Some(rows[i].id))
  {
    seq(|rows|, i requires 0 <= i < |rows| => ListedSession(rows[i], sessionId == Some(rows[i].id)))
  }

  /** `getAllSessions` of the controller: the service's list for the caller, with
      the caller's session marked. */
  function GetAllSessions(store: Store, userId: string, sessionId: Option<string>, now: int): (r: ListAnswer)
    reads store
    ensures r.status == StatusOk && r.message == "Retrieved all sessions successfully"
    ensures |r.sessions| == |SessionService.GetAllSessions(store, userId, now)|
    ensures r.sessions == MarkCurrent(SessionService.GetAllSessions(store, userId, now), sessionId)
  {
    ListAnswer(StatusOk, "Retrieved all sessions successfully",
               MarkCurrent(SessionService.GetAllSessions(store, userId, now), sessionId))
  }

  /** At most one listed session is marked current, and one is exactly when the
      request's session id names a live session of the caller. */
  lemma CurrentIsUnique(store: Store, userId: string, sessionId: Option<string>, now: int)
    requires store.Valid()
    ensures var l := GetAllSessions(store, userId, sessionId, now).sessions;
            forall i, j :: 0 <= i < |l| && 0 <= j < |l| && l[i].isCurrent && l[j].isCurrent ==> i == j
    ensures var l := GetAllSessions(store, userId, sessionId, now).sessions;
            (exists i :: 0 <= i < |l| && l[i].isCurrent) <==>
              sessionId.Some? &&
              exists s :: s in store.sessions && s.id == sessionId.value && s.userId == userId && s.expiresAt > now
  {
    var rows := SessionService.GetAllSessions(store, userId, now);
    var l := GetAllSessions(store, userId, sessionId, now).sessions;
    ListedIdsUnique(store, userId, now);
    forall i, j | 0 <= i < |l| && 0 <= j < |l| && l[i].isCurrent && l[j].isCurrent ensures i == j {
      DistinctIds(rows, i, j);
    }
    if exists i :: 0 <= i < |l| && l[i].isCurrent {
      var i :| 0 <= i < |l| && l[i].isCurrent;
      assert rows[i] in rows;
    }
    if sessionId.Some? &&
       exists s :: s in store.sessions && s.id == sessionId.value && s.userId == userId && s.expiresAt > now {
      var s :| s in store.sessions && s.id == sessionId.value && s.userId == userId && s.expiresAt > now;
      assert Row(s) in rows;
      var i :| 0 <= i < |rows| && rows[i] == Row(s);
      assert l[i].isCurrent;
    }
  }

  /** In a list with distinct ids, two different positions hold different ids. */
  lemma DistinctIds(rows: seq<SessionRow>, i: int, j: int)
    requires UniqueKeys(rows, RowId)
    requires 0 <= i < |rows| && 0 <= j < |rows|
    ensures i != j ==> rows[i].id != rows[j].id
  {
    if i < j {
      assert RowId(rows[i]) != RowId(rows[j]);
    } else if j < i {
      assert RowId(rows[j]) != RowId(rows[i]);
    }
  }

  /** `getSession`: 404 "Session not found" when the request carries no session
      id (absent or empty). Otherwise the service is asked for the session's
      owner: an id naming no session (one deleted since the token was issued)
      makes the service throw, which the framework answers with 500; a known one
      gives 200, but with `session` undefined, because the service's result has
      only a `user`. */
  function GetSession(store: Store, sessionId: Option<string>): (r: SessionAnswer)
    reads store
    requires store.Valid()
    ensures r.status == StatusNotFound <==> sessionId.None? || sessionId.value == ""
    ensures r.status == StatusNotFound ==> r.message == "Session not found"
    ensures r.status == StatusInternalServerError <==>
              sessionId.Some? && sessionId.value != "" &&
              !exists s :: s in store.sessions && s.id == sessionId.value
    ensures r.status == StatusInternalServerError ==> r.message == InternalError.message
    ensures r.status !in {StatusNotFound, StatusInternalServerError} ==>
              r.status == StatusOk && r.message == "Retrieved session successfully"
    ensures r.session.None?
  {
    if sessionId.None? || sessionId.value == "" then
      SessionAnswer(StatusNotFound, "Session not found", None)
    else
      match GetOneSession(store, sessionId.value)
      case Err(e) => SessionAnswer(StatusInternalServerError, e.message, None)
      case Ok(_) => SessionAnswer(StatusOk, "Retrieved session successfully", None)
  }

  /** `remove`: the route id and the caller's user id go to `deleteSession`
      unchanged. */
  method Remove(store: Store, id: string, userId: string) returns (r: Result<string>)
    requires store.Valid()
    modifies store
    ensures store.Valid()
    ensures store.users == old(store.users) && store.prefs == old(store.prefs)
    ensures store.requests == old(store.requests)
    ensures r.Ok? <==> exists s :: s in old(store.sessions) && s.id == id && s.userId == userId
    ensures r.Ok? ==> store.sessions == RemoveKey(old(store.sessions), SessionId, id)
    ensures r.Ok? ==> r.value == "Session deleted successfully"
    ensures r.Err? ==> r == Err(RecordNotFound) && store.sessions == old(store.sessions)
  {
    r := DeleteSession(store, id, userId);
  }
}
