/** The server-side session table. A session row holds its id, the user it belongs to, the
    serialized session data and an expiry time; time is an integer count of milliseconds.
    The service keeps at most one row per user: creating a session for a user who has one
    refreshes that row instead of adding another. */
module Sessions {
  import opened Common

  const DayMillis: int := 86_400_000
  /** `expireAt.setDate(expireAt.getDate() + 90)`, taken as exactly 90 days. */
  const SessionLifetime: int := 90 * DayMillis

  /** The JSON stored in the `sess` column. */
  datatype SessionData = SessionData(userId: int, email: string, createdAt: int, lastActivity: int)

  datatype SessionRow = SessionRow(id: string, userId: int, sess: SessionData, expiredAt: int)

  /** What `getSessionUser` answers. */
  datatype SessionUser = SessionUser(userId: int, email: string, lastActivity: int)

  /** Session ids are unique and no user has two rows. */
  predicate WellFormed(rows: seq<SessionRow>) {
    forall i, j :: 0 <= i < j < |rows| ==> rows[i].id != rows[j].id && rows[i].userId != rows[j].userId
  }

  predicate HasId(rows: seq<SessionRow>, id: string) {
    exists i :: 0 <= i < |rows| && rows[i].id == id
  }

  /** The index of the first row of the user, `|rows|` when there is none
      (`SELECT id FROM sessions WHERE user_id = ?`, first row). */
  function FirstOfUser(rows: seq<SessionRow>, userId: int): (k: nat)
    ensures k <= |rows|
    ensures k < |rows| ==> rows[k].userId == userId
    ensures forall j :: 0 <= j < k ==> rows[j].userId != userId
  {
    if rows == [] then 0
    else if rows[0].userId == userId then 0
    else 1 + FirstOfUser(rows[1..], userId)
  }

  /** The session data written at time `now`. */
  function NewSessionData(userId: int, email: string, now: int): SessionData {
    SessionData(userId, email, now, now)
  }

  /** `UPDATE sessions SET sess = ?, expired_at = ? WHERE user_id = ?`. */
  function RefreshUser(rows: seq<SessionRow>, userId: int, data: SessionData, expiredAt: int)
    : (r: seq<SessionRow>)
    ensures |r| == |rows|
    ensures forall i :: 0 <= i < |rows| && rows[i].userId == userId ==>
              r[i] == rows[i].(sess := data, expiredAt := expiredAt)
    ensures forall i :: 0 <= i < |rows| && rows[i].userId != userId ==> r[i] == rows[i]
  {
    MapSeq(rows, (row: SessionRow) => if row.userId == userId then row.(sess := data, expiredAt := expiredAt) else row)
  }

  /** The table after `createSession(userId, email)` at `now`, where `freshId` is the id the
      uuid generator produced: the user's existing row is refreshed, or a row is added. */
  function CreatedRows(rows: seq<SessionRow>, userId: int, email: string, freshId: string, now: int)
    : seq<SessionRow>
  {
    var data := NewSessionData(userId, email, now);
    if FirstOfUser(rows, userId) < |rows| then RefreshUser(rows, userId, data, now + SessionLifetime)
    else rows + [SessionRow(freshId, userId, data, now + SessionLifetime)]
  }

  /** The id `createSession` returns: the existing row's id, or the fresh one. */
  function CreatedId(rows: seq<SessionRow>, userId: int, freshId: string): string {
    var k := FirstOfUser(rows, userId);
    if k < |rows| then rows[k].id else freshId
  }

  /** A user with a session keeps the same rows, in place: their row gets the new data and
      the expiry 90 days after now, every other row is untouched and the answer is the id of
      their row. */
  lemma CreateRefreshesExisting(rows: seq<SessionRow>, userId: int, email: string, freshId: string, now: int)
    requires FirstOfUser(rows, userId) < |rows|
    ensures var r := CreatedRows(rows, userId, email, freshId, now);
            && |r| == |rows|
            && (forall i :: 0 <= i < |rows| ==> r[i].id == rows[i].id && r[i].userId == rows[i].userId)
            && (forall i :: 0 <= i < |rows| && rows[i].userId == userId ==>
                  r[i].sess == NewSessionData(userId, email, now) && r[i].expiredAt == now + SessionLifetime)
            && (forall i :: 0 <= i < |rows| && rows[i].userId != userId ==> r[i] == rows[i])
            && (exists i :: 0 <= i < |rows| && rows[i].userId == userId && rows[i].id == CreatedId(rows, userId, freshId))
  {
    var k := FirstOfUser(rows, userId);
    assert rows[k].id == CreatedId(rows, userId, freshId);
  }

  /** A user without a session gets exactly one new row, under the fresh id, and the old rows
      stay as they were. */
  lemma CreateAddsOne(rows: seq<SessionRow>, userId: int, email: string, freshId: string, now: int)
    requires forall i :: 0 <= i < |rows| ==> rows[i].userId != userId
    ensures CreatedRows(rows, userId, email, freshId, now)
            == rows + [SessionRow(freshId, userId, NewSessionData(userId, email, now), now + SessionLifetime)]
    ensures CreatedId(rows, userId, freshId) == freshId
  {
  }

  /** Creating a session never gives a user a second row and keeps the ids unique, provided
      the generated id is not in use. */
  lemma CreateKeepsWellFormed(rows: seq<SessionRow>, userId: int, email: string, freshId: string, now: int)
    requires WellFormed(rows) && !HasId(rows, freshId)
    ensures WellFormed(CreatedRows(rows, userId, email, freshId, now))
  {
    var r := CreatedRows(rows, userId, email, freshId, now);
    if FirstOfUser(rows, userId) < |rows| {
      assert forall i :: 0 <= i < |rows| ==> r[i].id == rows[i].id && r[i].userId == rows[i].userId;
    } else {
      assert forall i :: 0 <= i < |rows| ==> r[i] == rows[i];
    }
  }

  /** `getSessionUser`: the data of the first row with that id whose expiry is strictly after
      now; none for a missing cookie, an unknown id or an expired row. */
  function LookupSession(rows: seq<SessionRow>, sessionId: Option<string>, now: int): (r: Option<SessionUser>)
    ensures r.Some? <==> sessionId.Some? && exists i :: 0 <= i < |rows| && rows[i].id == sessionId.value && rows[i].expiredAt > now
    ensures r.Some? ==>
              exists i :: 0 <= i < |rows| && rows[i].id == sessionId.value && rows[i].expiredAt > now
                && r.value == SessionUser(rows[i].sess.userId, rows[i].sess.email, rows[i].sess.lastActivity)
  {
    if sessionId.None? || rows == [] then None
    else if rows[0].id == sessionId.value && rows[0].expiredAt > now then
      Some(SessionUser(rows[0].sess.userId, rows[0].sess.email, rows[0].sess.lastActivity))
    else
      var r := LookupSession(rows[1..], sessionId, now);
      assert r.Some? ==>
               exists i :: 0 <= i < |rows[1..]| && rows[1..][i].id == sessionId.value && rows[1..][i].expiredAt > now
                 && r.value == SessionUser(rows[1..][i].sess.userId, rows[1..][i].sess.email, rows[1..][i].sess.lastActivity);
      r
  }

  /** Until it expires, the id handed out by `createSession` finds the user and e-mail just
      stored, with the creation time as last activity. */
  lemma CreatedSessionIsFound(rows: seq<SessionRow>, userId: int, email: string, freshId: string, now: int, later: int)
    requires WellFormed(rows) && !HasId(rows, freshId)
    requires later < now + SessionLifetime
    ensures LookupSession(CreatedRows(rows, userId, email, freshId, now), Some(CreatedId(rows, userId, freshId)), later)
            == Some(SessionUser(userId, email, now))
  {
    var r := CreatedRows(rows, userId, email, freshId, now);
    var id := CreatedId(rows, userId, freshId);
    var k := FirstOfUser(rows, userId);
    var idx := if k < |rows| then k else |rows|;
    assert r[idx].id == id && r[idx].expiredAt > later && r[idx].sess == NewSessionData(userId, email, now);
    CreateKeepsWellFormed(rows, userId, email, freshId, now);
    var found := LookupSession(r, Some(id), later);
    var i :| 0 <= i < |r| && r[i].id == id && r[i].expiredAt > later
             && found.value == SessionUser(r[i].sess.userId, r[i].sess.email, r[i].sess.lastActivity);
    assert i == idx;
  }

  /** `DELETE FROM sessions WHERE id = ?`. */
  function WithoutSession(rows: seq<SessionRow>, sessionId: string): (r: seq<SessionRow>)
    ensures forall i :: 0 <= i < |r| ==> r[i].id != sessionId && r[i] in rows
    ensures forall i :: 0 <= i < |rows| && rows[i].id != sessionId ==> rows[i] in r
    ensures forall row :: multiset(r)[row] == if row.id != sessionId then multiset(rows)[row] else 0
    ensures IsSubsequence(r, rows)
  {
    FilterMultiset(rows, (row: SessionRow) => row.id != sessionId);
    Filter(rows, (row: SessionRow) => row.id != sessionId)
  }

  /** A deleted session is no longer found. */
  lemma DeletedSessionNotFound(rows: seq<SessionRow>, sessionId: string, now: int)
    ensures LookupSession(WithoutSession(rows, sessionId), Some(sessionId), now) == None
  {
  }

  /** `DELETE FROM sessions WHERE expired_at < ?`: the rows expiring at or after now stay. */
  function Unexpired(rows: seq<SessionRow>, now: int): (r: seq<SessionRow>)
    ensures forall i :: 0 <= i < |r| ==> r[i].expiredAt >= now && r[i] in rows
    ensures forall i :: 0 <= i < |rows| && rows[i].expiredAt >= now ==> rows[i] in r
    ensures forall row :: multiset(r)[row] == if row.expiredAt >= now then multiset(rows)[row] else 0
    ensures IsSubsequence(r, rows)
  {
    FilterMultiset(rows, (row: SessionRow) => !(row.expiredAt < now));
    Filter(rows, (row: SessionRow) => !(row.expiredAt < now))
  }

  /** Deleting rows keeps a table well formed: a subsequence of a well-formed table is well
      formed. */
  lemma {:induction false} SubsequenceKeepsWellFormed(a: seq<SessionRow>, b: seq<SessionRow>)
    requires WellFormed(b) && IsSubsequence(a, b)
    ensures WellFormed(a)
    decreases |b|
  {
    if a != [] {
      assert WellFormed(b[1..]) by {
        assert forall i :: 0 <= i < |b[1..]| ==> b[1..][i] == b[i + 1];
      }
      if a[0] == b[0] && IsSubsequence(a[1..], b[1..]) {
        SubsequenceKeepsWellFormed(a[1..], b[1..]);
        SubsequenceElements(a[1..], b[1..]);
        forall i, j | 0 <= i < j < |a| ensures a[i].id != a[j].id && a[i].userId != a[j].userId {
          assert a[j] == a[1..][j - 1];
          if i == 0 {
            var m :| 0 <= m < |b[1..]| && b[1..][m] == a[j];
            assert b[m + 1] == a[j];
          } else {
            assert a[i] == a[1..][i - 1];
          }
        }
      } else {
        SubsequenceKeepsWellFormed(a, b[1..]);
      }
    }
  }

  /** A row that expires exactly now survives the cleanup, yet the lookup already rejects it. */
  lemma ExpiryBoundary(rows: seq<SessionRow>, k: nat, now: int)
    requires WellFormed(rows) && k < |rows| && rows[k].expiredAt == now
    ensures rows[k] in Unexpired(rows, now)
    ensures LookupSession(rows, Some(rows[k].id), now) == None
  {
  }

  /** The cleanup changes no answer of a lookup made at or after the cleanup time. */
  lemma CleanupKeepsLookups(rows: seq<SessionRow>, now: int, sessionId: Option<string>, later: int)
    requires now <= later
    ensures LookupSession(Unexpired(rows, now), sessionId, later) == LookupSession(rows, sessionId, later)
  {
    LookupIgnoresExpired(rows, now, sessionId, later);
  }

  /** The same fact over the filter that `Unexpired` runs, by induction on the table. */
  lemma {:induction false} LookupIgnoresExpired(rows: seq<SessionRow>, now: int, sessionId: Option<string>, later: int)
    requires now <= later
    ensures LookupSession(Filter(rows, (row: SessionRow) => !(row.expiredAt < now)), sessionId, later)
            == LookupSession(rows, sessionId, later)
  {
    if rows != [] {
      LookupIgnoresExpired(rows[1..], now, sessionId, later);
      var keep := (row: SessionRow) => !(row.expiredAt < now);
      var rest := Filter(rows[1..], keep);
      if keep(rows[0]) {
        assert Filter(rows, keep) == [rows[0]] + rest;
        assert ([rows[0]] + rest)[1..] == rest;
      } else {
        assert Filter(rows, keep) == rest;
      }
    }
  }

  /** The `sessions` table. */
  class SessionStore {
    var rows: seq<SessionRow>

    constructor ()
      ensures rows == [] && WellFormed(rows)
    {
      rows := [];
    }

    /** `createSession(userId, email)` at `now`; `freshId` is what the uuid generator
        produced, assumed not in use. */
    method CreateSession(userId: int, email: string, freshId: string, now: int) returns (sessionId: string)
      requires WellFormed(rows) && !HasId(rows, freshId)
      modifies this
      ensures rows == CreatedRows(old(rows), userId, email, freshId, now)
      ensures sessionId == CreatedId(old(rows), userId, freshId)
      ensures WellFormed(rows)
    {
      var data := NewSessionData(userId, email, now);
      var expireAt := now + SessionLifetime;
      var existing := FirstOfUser(rows, userId);
      CreateKeepsWellFormed(rows, userId, email, freshId, now);
      if existing < |rows| {
        sessionId := rows[existing].id;
        rows := RefreshUser(rows, userId, data, expireAt);
      } else {
        rows := rows + [SessionRow(freshId, userId, data, expireAt)];
        sessionId := freshId;
      }
    }

    /** `getSessionUser(sessionId)` at `now`: a user exactly when the table holds a row with
        that id that expires strictly after now, and then that row's stored data. */
    function GetSessionUser(sessionId: Option<string>, now: int): (r: Option<SessionUser>)
      reads this
      ensures r.Some? <==> sessionId.Some? && exists i :: 0 <= i < |rows| && rows[i].id == sessionId.value && rows[i].expiredAt > now
      ensures r.Some? ==>
                exists i :: 0 <= i < |rows| && rows[i].id == sessionId.value && rows[i].expiredAt > now
                  && r.value == SessionUser(rows[i].sess.userId, rows[i].sess.email, rows[i].sess.lastActivity)
    {
      LookupSession(rows, sessionId, now)
    }

    /** `deleteSession(sessionId)`. */
    method DeleteSession(sessionId: string)
      modifies this
      ensures rows == WithoutSession(old(rows), sessionId)
      ensures WellFormed(old(rows)) ==> WellFormed(rows)
    {
      if WellFormed(rows) {
        SubsequenceKeepsWellFormed(WithoutSession(rows, sessionId), rows);
      }
      rows := WithoutSession(rows, sessionId);
    }

    /** `cleanupSessions()` at `now`. */
    method CleanupSessions(now: int)
      modifies this
      ensures rows == Unexpired(old(rows), now)
      ensures WellFormed(old(rows)) ==> WellFormed(rows)
    {
      if WellFormed(rows) {
        SubsequenceKeepsWellFormed(Unexpired(rows, now), rows);
      }
      rows := Unexpired(rows, now);
    }
  }
}
