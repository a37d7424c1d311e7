/**
 What each request does to users, invites, recovery tokens and sessions (internal/store/enroll.go, recovery.go,
 sessions.go, account.go, admin.go), row by row and told from the request itself; and when a token is accepted.
 */
module TokenEffects {
  import opened Options
  import opened Clock
  import opened Tokens
  import opened TokenRuns

  // ----- which requests take effect

  predicate Unused(t: Tickets, id: Id) {
    id in t && t[id].usedAt == None
  }

  ghost predicate Enrols(db: Db, e: Event, user: Id) {
    e.Enroll? && e.user == user && Unused(db.invites, e.id) && user in db.users && db.users[user] == Pending
  }

  ghost predicate Recovers(db: Db, e: Event, user: Id) {
    e.Recover? && e.user == user && Unused(db.tokens, e.id) && user in db.users && db.users[user] == Active
  }

  /** No row has the identifier or the hash. */
  ghost predicate FreeTicket(t: Tickets, id: Id, hash: Hash) {
    id !in t && forall i | i in t :: t[i].hash != hash
  }

  ghost predicate Resets(db: Db, e: Event, user: Id) {
    e.Reset? && e.user == user && user in db.users && FreeTicket(db.invites, e.invite, e.hash)
  }

  /** The request's token is the session's, and neither the half hour nor the thirty days are over. */
  predicate Accepting(db: Db, e: Event, id: Id, at: int) {
    && e.Access? && e.id == id && e.later == at && id in db.sessions && db.sessions[id].access == e.access
    && db.sessions[id].revokedAt == None && e.now <= db.sessions[id].expiresAt
    && at <= db.sessions[id].createdAt + 2_592_000 * 1_000_000_000
  }

  /** What is recorded as having happened is what took effect. */
  lemma {:induction false} HappensIff(db: Db, e: Event)
    ensures forall id :: Activated(id) in Happens(db, e) <==> e.Enroll? && e.id == id && Enrols(db, e, e.user)
    ensures forall id :: Completed(id) in Happens(db, e) <==> e.Recover? && e.id == id && Recovers(db, e, e.user)
    ensures forall refresh ::
      Exchanged(refresh) in Happens(db, e) <==> e.Exchange? && e.refresh == refresh && Exchanges(db, e, e.id)
    ensures forall id, at :: Accepted(id, at) in Happens(db, e) <==> Accepting(db, e, id, at)
  {
  }

  // ----- users

  /** Where a user stands after one request. */
  lemma {:induction false} UserStepped(db: Db, e: Event, user: Id)
    ensures user in After(db, e).users <==> user in db.users || e == AddUser(user)
    ensures user in After(db, e).users ==>
      After(db, e).users[user] ==
        if Enrols(db, e, user) then Active
        else if Resets(db, e, user) || user !in db.users then Pending
        else if e.ChangeStatus? && e.user == user then (if e.disabled then Disabled else Active)
        else db.users[user]
  {
  }

  // ----- invites and recovery tokens

  /** A ticket is made for a user and lives as long as its kind does; whole seconds are kept. */
  ghost predicate MadeAs(t: Tickets, id: Id, user: Id, hash: Hash, expires: int) {
    && id in t && t[id].user == user && t[id].hash == hash && t[id].usedAt == None
    && t[id].expiresAt == expires / 1_000_000_000 * 1_000_000_000
  }

  ghost predicate MakesInvite(db: Db, e: Event, id: Id) {
    || (e.CreateInvite? && e.id == id && FreeTicket(db.invites, id, e.hash))
    || (e.Reset? && e.invite == id && Resets(db, e, e.user))
  }

  lemma {:induction false} InviteStepped(db: Db, e: Event, id: Id)
    ensures id in After(db, e).invites <==> id in db.invites || MakesInvite(db, e, id)
    ensures MakesInvite(db, e, id) ==>
      MadeAs(After(db, e).invites, id, e.user, e.hash, e.now + 259_200 * 1_000_000_000)
    ensures id in db.invites && !(e.Enroll? && e.id == id && Enrols(db, e, e.user)) ==>
      After(db, e).invites[id] == db.invites[id]
    ensures id in db.invites && e.Enroll? && e.id == id && Enrols(db, e, e.user) ==>
      After(db, e).invites[id] == db.invites[id].(usedAt := After(db, e).invites[id].usedAt)
      && After(db, e).invites[id].usedAt.Some?
  {
  }

  /** A completed recovery spends its own token and every other one of its user. */
  ghost predicate SpendsToken(db: Db, e: Event, id: Id) {
    && id in db.tokens && e.Recover? && Recovers(db, e, e.user)
    && (id == e.id || db.tokens[id].user == e.user)
  }

  lemma {:induction false} TokenStepped(db: Db, e: Event, id: Id)
    ensures id in After(db, e).tokens
            <==> id in db.tokens || (e.CreateToken? && e.id == id && FreeTicket(db.tokens, id, e.hash))
    ensures id !in db.tokens && id in After(db, e).tokens ==>
      MadeAs(After(db, e).tokens, id, e.user, e.hash, e.now + 600 * 1_000_000_000)
    ensures id in db.tokens && !SpendsToken(db, e, id) ==> After(db, e).tokens[id] == db.tokens[id]
    ensures SpendsToken(db, e, id) ==>
      After(db, e).tokens[id] == db.tokens[id].(usedAt := After(db, e).tokens[id].usedAt)
      && After(db, e).tokens[id].usedAt.Some?
  {
  }

  /** A look-up finds a ticket from when it is made until its expiry or its use. */
  lemma {:induction false} FoundUntil(t: Tickets, id: Id, user: Id, hash: Hash, expires: int, at: int)
    requires MadeAs(t, id, user, hash, expires)
    ensures Finds(t, hash, at, id) <==> at <= expires / 1_000_000_000 * 1_000_000_000
  {
  }

  // ----- sessions

  /** Neither the identifier nor either token is in use. */
  ghost predicate FreePair(all: Sessions, access: Hash, refresh: Hash) {
    forall i | i in all :: all[i].access != access && all[i].refresh != refresh
  }

  ghost predicate Opens(db: Db, e: Event, id: Id) {
    e.CreateSession? && e.id == id && id !in db.sessions && FreePair(db.sessions, e.access, e.refresh)
  }

  /** The presented refresh token is the session's current one, and both new tokens are new. */
  ghost predicate Exchanges(db: Db, e: Event, id: Id) {
    && e.Exchange? && e.id == id && id in db.sessions && db.sessions[id].revokedAt == None
    && db.sessions[id].refresh == e.refresh && FreePair(db.sessions, e.newAccess, e.newRefresh)
  }

  ghost predicate Touches(db: Db, e: Event, id: Id) {
    e.TouchOne? && e.id == id && id in db.sessions && db.sessions[id].revokedAt == None
  }

  /** The request ends the session: by itself, or with all of its user's but one kept by a password change. */
  ghost predicate Closes(db: Db, e: Event, id: Id) {
    && id in db.sessions
    && var user := db.sessions[id].user;
       || (e.RevokeOne? && e.id == id)
       || Recovers(db, e, user)
       || Resets(db, e, user)
       || (e.ChangePassword? && e.user == user && e.keep != Some(id) && user in db.users && db.users[user] == Active)
       || (e.ChangeStatus? && e.user == user && e.disabled && user in db.users)
  }

  /** Half an hour from now, in whole seconds. */
  function HalfHour(now: int): int {
    (now + 1800 * 1_000_000_000) / 1_000_000_000 * 1_000_000_000
  }

  lemma {:induction false} OpenedStepped(db: Db, e: Event, id: Id)
    requires e.CreateSession? || e.Exchange? || e.TouchOne?
    ensures id in After(db, e).sessions <==> id in db.sessions || Opens(db, e, id)
    ensures Opens(db, e, id) ==>
      && After(db, e).sessions[id].user == e.user && After(db, e).sessions[id].revokedAt == None
      && After(db, e).sessions[id].access == e.access && After(db, e).sessions[id].refresh == e.refresh
      && After(db, e).sessions[id].createdAt == e.now / 1_000_000_000 * 1_000_000_000
      && After(db, e).sessions[id].expiresAt == HalfHour(e.now)
    ensures Exchanges(db, e, id) ==>
      && After(db, e).sessions[id] == db.sessions[id].(access := e.newAccess, refresh := e.newRefresh,
           lastSeenAt := After(db, e).sessions[id].lastSeenAt, expiresAt := HalfHour(e.now))
    ensures Touches(db, e, id) ==>
      && After(db, e).sessions[id] == db.sessions[id].(
           lastSeenAt := After(db, e).sessions[id].lastSeenAt, expiresAt := HalfHour(e.now))
    ensures id in db.sessions && !Exchanges(db, e, id) && !Touches(db, e, id) ==>
      After(db, e).sessions[id] == db.sessions[id]
  {
  }

  lemma {:induction false} ClosedStepped(db: Db, e: Event, id: Id)
    requires !e.CreateSession? && !e.Exchange? && !e.TouchOne?
    ensures id in After(db, e).sessions <==> id in db.sessions
    ensures id in db.sessions ==>
      && After(db, e).sessions[id] == db.sessions[id].(revokedAt := After(db, e).sessions[id].revokedAt)
      && (After(db, e).sessions[id].revokedAt == None <==> db.sessions[id].revokedAt == None && !Closes(db, e, id))
      && (db.sessions[id].revokedAt.Some? ==> After(db, e).sessions[id].revokedAt == db.sessions[id].revokedAt)
  {
  }

  /** The request gives the session a new half hour. */
  ghost predicate Renews(db: Db, e: Event, id: Id) {
    Opens(db, e, id) || Exchanges(db, e, id) || Touches(db, e, id)
  }

  /** What one request does to one session. */
  lemma {:induction false} SessionStepped(db: Db, e: Event, id: Id)
    ensures id in After(db, e).sessions <==> id in db.sessions || Opens(db, e, id)
    ensures Renews(db, e, id) ==>
      After(db, e).sessions[id].expiresAt == HalfHour(e.now) && After(db, e).sessions[id].revokedAt == None
    ensures id in db.sessions && !Renews(db, e, id) ==>
      && After(db, e).sessions[id] == db.sessions[id].(revokedAt := After(db, e).sessions[id].revokedAt)
      && (After(db, e).sessions[id].revokedAt == None <==> db.sessions[id].revokedAt == None && !Closes(db, e, id))
    ensures id in db.sessions ==> After(db, e).sessions[id].createdAt == db.sessions[id].createdAt
  {
    if e.CreateSession? || e.Exchange? || e.TouchOne? {
      OpenedStepped(db, e, id);
    } else {
      ClosedStepped(db, e, id);
    }
  }

  /** A run in which no request renews the session or ends it. */
  ghost predicate Untouched(from: System, events: seq<Event>, s: System, id: Id) {
    if events == [] then s == from
    else
      var n := |events| - 1;
      exists r ::
        && Untouched(from, events[..n], r, id) && Possible(r, events[n]) && s == Next(r, events[n])
        && !Renews(r.db, events[n], id) && !Closes(r.db, events[n], id)
  }

  lemma {:induction false} UntouchedStays(from: System, events: seq<Event>, s: System, id: Id)
    requires Untouched(from, events, s, id) && id in from.db.sessions && from.db.sessions[id].revokedAt == None
    ensures id in s.db.sessions && s.db.sessions[id] == from.db.sessions[id]
  {
    if events != [] {
      var n := |events| - 1;
      var r :| Untouched(from, events[..n], r, id) && Possible(r, events[n]) && s == Next(r, events[n])
               && !Renews(r.db, events[n], id) && !Closes(r.db, events[n], id);
      UntouchedStays(from, events[..n], r, id);
      SessionStepped(r.db, events[n], id);
    }
  }

  /**
   A session's access token is accepted, after it was last renewed and whatever else has happened, exactly for half an
   hour and no later than thirty days after the session was opened.
   */
  lemma {:induction false} AcceptedIff(s: System, e: Event, events: seq<Event>, t: System, id: Id, now: int, later: int)
    requires Renews(s.db, e, id) && Untouched(Next(s, e), events, t, id)
    ensures id in Next(s, e).db.sessions && id in t.db.sessions
    ensures var row := Next(s, e).db.sessions[id];
            Accepts(t.db.sessions, row.access, now, later, id)
            <==> now <= HalfHour(e.now) && later <= row.createdAt + 2_592_000 * 1_000_000_000
  {
    SessionStepped(s.db, e, id);
    UntouchedStays(Next(s, e), events, t, id);
  }

  /** So is its refresh token, for the thirty days alone; an exchanged token is no session's any more. */
  lemma {:induction false} RefreshFoundIff(s: System, e: Event, events: seq<Event>, t: System, id: Id, now: int)
    requires Renews(s.db, e, id) && Untouched(Next(s, e), events, t, id)
    ensures id in Next(s, e).db.sessions && id in t.db.sessions
    ensures var row := Next(s, e).db.sessions[id];
            FindsRefresh(t.db.sessions, row.refresh, now, id)
            <==> now <= row.createdAt + 2_592_000 * 1_000_000_000
  {
    SessionStepped(s.db, e, id);
    UntouchedStays(Next(s, e), events, t, id);
  }

  /** A password change ends the user's other sessions, and the one it is made from goes on. */
  lemma {:induction false} ChangeKeepsOne(db: Db, user: Id, keep: Id, now: int, id: Id)
    requires user in db.users && db.users[user] == Active && id in db.sessions && db.sessions[id].user == user
    requires db.sessions[id].revokedAt == None
    ensures id in After(db, ChangePassword(user, Some(keep), now)).sessions
    ensures After(db, ChangePassword(user, Some(keep), now)).sessions[id].revokedAt == None <==> id == keep
  {
    SessionStepped(db, ChangePassword(user, Some(keep), now), id);
  }
}
