/**
 Invites, recovery tokens and sessions (internal/store/enroll.go, recovery.go, sessions.go, account.go, invites.go): the
 rows and the statements and transactions that change them. Each look-up and each transaction is one step; times are
 nanoseconds, stored in whole seconds.
 */
module Tokens {
  import opened Options
  import opened Clock

  type Id = nat

  /** A token's SHA-256; tokens are random and the hash is taken to be injective. */
  type Hash = nat

  const INVITE_TTL: int := 72 * 3600 * SECOND
  const RECOVERY_TTL: int := 600 * SECOND
  const ACCESS_LIFETIME: int := 1800 * SECOND
  const REFRESH_LIFETIME: int := 30 * 24 * 3600 * SECOND

  /** A time as the database keeps it. */
  function Stamp(time: int): (s: int)
    ensures s <= time < s + SECOND && s % SECOND == 0
  {
    Seconds(time) * SECOND
  }

  datatype Status = Pending | Active | Disabled

  /** One row of invites or of recovery_tokens. */
  datatype Ticket = Ticket(user: Id, hash: Hash, expiresAt: int, usedAt: Option<int>)

  type Tickets = map<Id, Ticket>

  datatype Session = Session(
    user: Id, access: Hash, refresh: Hash, createdAt: int, lastSeenAt: int, expiresAt: int, revokedAt: Option<int>)

  type Sessions = map<Id, Session>

  datatype Db = Db(users: map<Id, Status>, invites: Tickets, tokens: Tickets, sessions: Sessions)

  // ----- tickets

  predicate HashTaken(t: Tickets, hash: Hash) {
    exists id :: id in t && t[id].hash == hash
  }

  function Issue(t: Tickets, id: Id, user: Id, hash: Hash, now: int, ttl: int): Tickets {
    if id in t || HashTaken(t, hash) then t else t[id := Ticket(user, hash, Stamp(now + ttl), None)]
  }

  /** What a look-up by token finds: an unused row whose expiry has not passed. */
  predicate Finds(t: Tickets, hash: Hash, now: int, id: Id) {
    id in t && t[id].hash == hash && t[id].usedAt.None? && now <= t[id].expiresAt
  }

  function Spend(t: Tickets, id: Id, now: int): Option<Tickets> {
    if id in t && t[id].usedAt.None? then Some(t[id := t[id].(usedAt := Some(Stamp(now)))]) else None
  }

  function Retired(row: Ticket, user: Id, now: int): Ticket {
    if row.user == user && row.usedAt.None? then row.(usedAt := Some(Stamp(now))) else row
  }

  function RetireAll(t: Tickets, user: Id, now: int): Tickets {
    map id | id in t :: Retired(t[id], user, now)
  }

  // ----- sessions

  predicate Live(s: Session) {
    s.revokedAt.None?
  }

  function Revoked(s: Session, now: int): Session {
    if Live(s) then s.(revokedAt := Some(Stamp(now))) else s
  }

  /** Every live session of the user but the one kept. */
  function RevokeOthers(all: Sessions, user: Id, keep: Option<Id>, now: int): Sessions {
    map id | id in all :: if all[id].user == user && keep != Some(id) then Revoked(all[id], now) else all[id]
  }

  /** The schema keeps both columns unique. */
  predicate PairTaken(all: Sessions, access: Hash, refresh: Hash) {
    exists id :: id in all && (all[id].access == access || all[id].refresh == refresh)
  }

  function Start(all: Sessions, id: Id, user: Id, access: Hash, refresh: Hash, now: int): Sessions {
    if id in all || PairTaken(all, access, refresh) then all
    else all[id := Session(user, access, refresh, Stamp(now), Stamp(now), Stamp(now + ACCESS_LIFETIME), None)]
  }

  /** A request's access token is accepted: two readings of the clock after the row was read. */
  predicate Accepts(all: Sessions, access: Hash, now: int, later: int, id: Id) {
    && id in all && all[id].access == access && Live(all[id])
    && now <= all[id].expiresAt
    && later <= all[id].createdAt + REFRESH_LIFETIME
  }

  /** What the look-up of a refresh finds. */
  predicate FindsRefresh(all: Sessions, refresh: Hash, now: int, id: Id) {
    id in all && all[id].refresh == refresh && Live(all[id]) && now <= all[id].createdAt + REFRESH_LIFETIME
  }

  function Rotate(all: Sessions, id: Id, refresh: Hash, newAccess: Hash, newRefresh: Hash, now: int): Option<Sessions> {
    if id in all && all[id].refresh == refresh && Live(all[id]) && !PairTaken(all, newAccess, newRefresh)
    then Some(all[id := all[id].(access := newAccess, refresh := newRefresh, lastSeenAt := Stamp(now),
                                 expiresAt := Stamp(now + ACCESS_LIFETIME))])
    else None
  }

  function Touch(all: Sessions, id: Id, now: int): Sessions {
    if id in all && Live(all[id])
    then all[id := all[id].(lastSeenAt := Stamp(now), expiresAt := Stamp(now + ACCESS_LIFETIME))]
    else all
  }

  function Revoke(all: Sessions, id: Id, now: int): Sessions {
    if id in all then all[id := Revoked(all[id], now)] else all
  }

  // ----- transactions

  /** Consumes the invite and activates its user, together or not at all. */
  function CompleteEnrollment(db: Db, id: Id, user: Id, now: int): Option<Db> {
    match Spend(db.invites, id, now)
    case None => None
    case Some(invites) =>
      if user in db.users && db.users[user].Pending?
      then Some(db.(invites := invites, users := db.users[user := Active]))
      else None
  }

  /** Spends the token, retires the user's other tokens and revokes every session, together or not at all. */
  function CompleteRecovery(db: Db, id: Id, user: Id, now: int): Option<Db> {
    match Spend(db.tokens, id, now)
    case None => None
    case Some(tokens) =>
      if user in db.users && db.users[user].Active?
      then Some(db.(tokens := RetireAll(tokens, user, now), sessions := RevokeOthers(db.sessions, user, None, now)))
      else None
  }

  function RotatePassword(db: Db, user: Id, keep: Option<Id>, now: int): Option<Db> {
    if user in db.users && db.users[user].Active?
    then Some(db.(sessions := RevokeOthers(db.sessions, user, keep, now)))
    else None
  }

  function SetStatus(db: Db, user: Id, disabled: bool, now: int): Option<Db> {
    if user !in db.users then None
    else if disabled
    then Some(db.(users := db.users[user := Disabled], sessions := RevokeOthers(db.sessions, user, None, now)))
    else Some(db.(users := db.users[user := Active]))
  }

  function ResetUser(db: Db, user: Id, invite: Id, hash: Hash, now: int): Option<Db> {
    if user !in db.users || invite in db.invites || HashTaken(db.invites, hash) then None
    else Some(db.(users := db.users[user := Pending],
                  sessions := RevokeOthers(db.sessions, user, None, now),
                  invites := Issue(db.invites, invite, user, hash, now, INVITE_TTL)))
  }
}
