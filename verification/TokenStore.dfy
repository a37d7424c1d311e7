/**
 The store's statements as updates of its tables (internal/store/enroll.go, recovery.go, sessions.go, account.go). A Go
 method that looks a row up and then opens a transaction is two methods here, since other requests run in between.
 */
module TokenStore {
  import opened Options
  import opened Tokens

  class AuthStore {
    var users: map<Id, Status>
    var invites: Tickets
    var tokens: Tickets
    var sessions: Sessions

    ghost function Contents(): Db
      reads this
    {
      Db(users, invites, tokens, sessions)
    }

    constructor ()
      ensures Contents() == Db(map[], map[], map[], map[])
    {
      users, invites, tokens, sessions := map[], map[], map[], map[];
    }

    /** The one unused row of a hash, unless its expiry has passed. */
    static method ByToken(rows: Tickets, hash: Hash, now: int) returns (found: Option<(Id, Id)>)
      requires forall a, b | a in rows && b in rows && rows[a].hash == rows[b].hash :: a == b
      ensures found.Some? ==> Finds(rows, hash, now, found.value.0) && rows[found.value.0].user == found.value.1
      ensures found.None? ==> forall id :: !Finds(rows, hash, now, id)
    {
      var left := rows.Keys;
      while left != {}
        invariant left <= rows.Keys
        invariant forall id | id in rows && id !in left :: rows[id].hash != hash || rows[id].usedAt.Some?
        decreases |left|
      {
        var id :| id in left;
        if rows[id].hash == hash && rows[id].usedAt.None? {
          if now > rows[id].expiresAt {
            return None;
          }
          return Some((id, rows[id].user));
        }
        left := left - {id};
      }
      return None;
    }

    /** The enrolment transaction, on a row looked up before: both updates or neither. */
    method FinishEnrollment(id: Id, user: Id, now: int) returns (ok: bool)
      modifies this
      ensures ok <==> CompleteEnrollment(old(Contents()), id, user, now).Some?
      ensures Contents() == if ok then CompleteEnrollment(old(Contents()), id, user, now).value else old(Contents())
    {
      var before := invites;
      if id !in invites || invites[id].usedAt.Some? {
        return false;
      }
      invites := invites[id := invites[id].(usedAt := Some(Stamp(now)))];
      if user !in users || !users[user].Pending? {
        invites := before;
        return false;
      }
      users := users[user := Active];
      return true;
    }

    /** `UPDATE recovery_tokens` over every unused row of the user. */
    method RetireTokens(user: Id, now: int)
      modifies this`tokens
      ensures tokens == RetireAll(old(tokens), user, now)
    {
      var all := tokens;
      var left := all.Keys;
      while left != {}
        invariant left <= all.Keys && tokens.Keys == all.Keys
        invariant forall id | id in all :: tokens[id] == if id in left then all[id] else Retired(all[id], user, now)
        decreases |left|
      {
        var id :| id in left;
        if tokens[id].user == user && tokens[id].usedAt.None? {
          tokens := tokens[id := tokens[id].(usedAt := Some(Stamp(now)))];
        }
        left := left - {id};
      }
    }

    /** `UPDATE sessions` over every live row of the user but the one kept. */
    method RevokeSessions(user: Id, keep: Option<Id>, now: int)
      modifies this`sessions
      ensures sessions == RevokeOthers(old(sessions), user, keep, now)
    {
      var all := sessions;
      var left := all.Keys;
      while left != {}
        invariant left <= all.Keys && SoFar(all, sessions, left, user, keep, now)
        decreases |left|
      {
        var id :| id in left;
        ghost var before := sessions;
        if sessions[id].user == user && sessions[id].revokedAt.None? && keep != Some(id) {
          sessions := sessions[id := sessions[id].(revokedAt := Some(Stamp(now)))];
        }
        SoFarNext(all, before, sessions, left, user, keep, now, id);
        left := left - {id};
      }
      SoFarAll(all, sessions, user, keep, now);
    }

    /** The recovery transaction: all of it or none. */
    method FinishRecovery(id: Id, user: Id, now: int) returns (ok: bool)
      modifies this
      ensures ok <==> CompleteRecovery(old(Contents()), id, user, now).Some?
      ensures Contents() == if ok then CompleteRecovery(old(Contents()), id, user, now).value else old(Contents())
    {
      var before := tokens;
      if id !in tokens || tokens[id].usedAt.Some? {
        return false;
      }
      tokens := tokens[id := tokens[id].(usedAt := Some(Stamp(now)))];
      RetireTokens(user, now);
      if user !in users || !users[user].Active? {
        tokens := before;
        return false;
      }
      RevokeSessions(user, None, now);
      return true;
    }

    method CreateSession(id: Id, user: Id, access: Hash, refresh: Hash, now: int) returns (ok: bool)
      modifies this`sessions
      ensures sessions == Start(old(sessions), id, user, access, refresh, now)
      ensures ok <==> id !in old(sessions) && !PairTaken(old(sessions), access, refresh)
    {
      if id in sessions || PairTaken(sessions, access, refresh) {
        return false;
      }
      sessions := sessions[id := Session(user, access, refresh, Stamp(now), Stamp(now), Stamp(now + ACCESS_LIFETIME),
          None)];
      return true;
    }

    /** The exchange, on a session looked up before by the same refresh token. */
    method RotateSession(id: Id, refresh: Hash, newAccess: Hash, newRefresh: Hash, now: int) returns (ok: bool)
      modifies this`sessions
      ensures ok <==> Rotate(old(sessions), id, refresh, newAccess, newRefresh, now).Some?
      ensures sessions == if ok then Rotate(old(sessions), id, refresh, newAccess, newRefresh, now).value
              else old(sessions)
    {
      if id !in sessions || sessions[id].refresh != refresh || sessions[id].revokedAt.Some?
         || PairTaken(sessions, newAccess, newRefresh) {
        return false;
      }
      sessions := sessions[id := sessions[id].(access := newAccess, refresh := newRefresh, lastSeenAt := Stamp(now),
                                               expiresAt := Stamp(now + ACCESS_LIFETIME))];
      return true;
    }

    method TouchSession(id: Id, now: int)
      modifies this`sessions
      ensures sessions == Touch(old(sessions), id, now)
    {
      if id in sessions && sessions[id].revokedAt.None? {
        sessions := sessions[id := sessions[id].(lastSeenAt := Stamp(now), expiresAt := Stamp(now + ACCESS_LIFETIME))];
      }
    }

    method RevokeSession(id: Id, now: int) returns (ok: bool)
      modifies this`sessions
      ensures sessions == Revoke(old(sessions), id, now)
      ensures ok <==> id in old(sessions) && Live(old(sessions)[id])
    {
      if id !in sessions || sessions[id].revokedAt.Some? {
        return false;
      }
      sessions := sessions[id := sessions[id].(revokedAt := Some(Stamp(now)))];
      return true;
    }
  }

  /** The table while the update has still to visit `left`. */
  ghost predicate SoFar(all: Sessions, table: Sessions, left: set<Id>, user: Id, keep: Option<Id>, now: int) {
    && table.Keys == all.Keys
    && forall id | id in all ::
         table[id] == if id !in left && all[id].user == user && keep != Some(id) then Revoked(all[id], now) else all[id]
  }

  lemma {:induction false} SoFarNext(
    all: Sessions, before: Sessions, after: Sessions, left: set<Id>, user: Id, keep: Option<Id>, now: int, id: Id)
    requires SoFar(all, before, left, user, keep, now) && id in left && id in all
    requires after == if before[id].user == user && keep != Some(id) && Live(before[id])
                      then before[id := Revoked(before[id], now)] else before
    ensures SoFar(all, after, left - {id}, user, keep, now)
  {
  }

  lemma {:induction false} SoFarAll(all: Sessions, after: Sessions, user: Id, keep: Option<Id>, now: int)
    requires SoFar(all, after, {}, user, keep, now)
    ensures after == RevokeOthers(all, user, keep, now)
  {
  }
}
