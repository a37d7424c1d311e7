/** Every interleaving of look-ups and transactions on invites, recovery tokens and sessions. */
module TokenRuns {
  import opened Options
  import opened Tokens

  /** A row some request has read and may act on later. */
  datatype Found =
    | AnInvite(id: Id, user: Id)
    | AToken(id: Id, user: Id)
    | ARefresh(id: Id, refresh: Hash)

  datatype Log =
    | Activated(invite: Id)
    | Completed(token: Id)
    | Exchanged(refresh: Hash)
    | Accepted(session: Id, at: int)

  /** The database, what requests in flight have read, every refresh token ever handed out, and what has happened. */
  datatype System = System(db: Db, found: set<Found>, issued: set<Hash>, log: seq<Log>)

  const START: System := System(Db(map[], map[], map[], map[]), {}, {}, [])

  datatype Event =
    | AddUser(user: Id)
    | CreateInvite(id: Id, user: Id, hash: Hash, now: int)
    | LookUpInvite(hash: Hash, id: Id, now: int)
    | Enroll(id: Id, user: Id, now: int)
    | CreateToken(id: Id, user: Id, hash: Hash, now: int)
    | LookUpToken(hash: Hash, id: Id, now: int)
    | Recover(id: Id, user: Id, now: int)
    | CreateSession(id: Id, user: Id, access: Hash, refresh: Hash, now: int)
    | LookUpRefresh(refresh: Hash, id: Id, now: int)
    | Exchange(id: Id, refresh: Hash, newAccess: Hash, newRefresh: Hash, now: int)
    | Access(access: Hash, id: Id, now: int, later: int)
    | TouchOne(id: Id, now: int)
    | RevokeOne(id: Id, now: int)
    | ChangePassword(user: Id, keep: Option<Id>, now: int)
    | ChangeStatus(user: Id, disabled: bool, now: int)
    | Reset(user: Id, invite: Id, hash: Hash, now: int)

  /** A transaction acts on a row read before, perhaps long before; a new refresh token is new. */
  predicate Possible(s: System, e: Event) {
    match e
    case Enroll(id, user, _) => AnInvite(id, user) in s.found
    case Recover(id, user, _) => AToken(id, user) in s.found
    case Exchange(id, refresh, _, newRefresh, _) => ARefresh(id, refresh) in s.found && newRefresh !in s.issued
    case CreateSession(_, _, _, refresh, _) => refresh !in s.issued
    case _ => true
  }

  function Or(done: Option<Db>, db: Db): Db {
    if done.Some? then done.value else db
  }

  /** The database after an event. */
  function After(db: Db, e: Event): Db {
    match e
    case AddUser(user) => if user in db.users then db else db.(users := db.users[user := Pending])
    case CreateInvite(id, user, hash, now) => db.(invites := Issue(db.invites, id, user, hash, now, INVITE_TTL))
    case Enroll(id, user, now) => Or(CompleteEnrollment(db, id, user, now), db)
    case CreateToken(id, user, hash, now) => db.(tokens := Issue(db.tokens, id, user, hash, now, RECOVERY_TTL))
    case Recover(id, user, now) => Or(CompleteRecovery(db, id, user, now), db)
    case CreateSession(id, user, access, refresh, now) =>
      db.(sessions := Start(db.sessions, id, user, access, refresh, now))
    case Exchange(id, refresh, newAccess, newRefresh, now) =>
      var done := Rotate(db.sessions, id, refresh, newAccess, newRefresh, now);
      if done.Some? then db.(sessions := done.value) else db
    case TouchOne(id, now) => db.(sessions := Touch(db.sessions, id, now))
    case RevokeOne(id, now) => db.(sessions := Revoke(db.sessions, id, now))
    case ChangePassword(user, keep, now) => Or(RotatePassword(db, user, keep, now), db)
    case ChangeStatus(user, disabled, now) => Or(SetStatus(db, user, disabled, now), db)
    case Reset(user, invite, hash, now) => Or(ResetUser(db, user, invite, hash, now), db)
    case _ => db
  }

  function NewlyFound(db: Db, e: Event): set<Found> {
    match e
    case LookUpInvite(hash, id, now) =>
      if Finds(db.invites, hash, now, id) then {AnInvite(id, db.invites[id].user)} else {}
    case LookUpToken(hash, id, now) => if Finds(db.tokens, hash, now, id) then {AToken(id, db.tokens[id].user)} else {}
    case LookUpRefresh(refresh, id, now) =>
      if FindsRefresh(db.sessions, refresh, now, id) then {ARefresh(id, refresh)} else {}
    case _ => {}
  }

  function Happens(db: Db, e: Event): seq<Log> {
    match e
    case Enroll(id, user, now) => if CompleteEnrollment(db, id, user, now).Some? then [Activated(id)] else []
    case Recover(id, user, now) => if CompleteRecovery(db, id, user, now).Some? then [Completed(id)] else []
    case Exchange(id, refresh, newAccess, newRefresh, now) =>
      if Rotate(db.sessions, id, refresh, newAccess, newRefresh, now).Some? then [Exchanged(refresh)] else []
    case Access(access, id, now, later) =>
      if Accepts(db.sessions, access, now, later, id) then [Accepted(id, later)] else []
    case _ => []
  }

  function NewlyIssued(e: Event): set<Hash> {
    match e
    case CreateSession(_, _, _, refresh, _) => {refresh}
    case Exchange(_, _, _, newRefresh, _) => {newRefresh}
    case _ => {}
  }

  function Next(s: System, e: Event): System {
    System(After(s.db, e), s.found + NewlyFound(s.db, e), s.issued + NewlyIssued(e), s.log + Happens(s.db, e))
  }

  ghost predicate Reaches(from: System, events: seq<Event>, s: System) {
    if events == [] then s == from
    else
      var n := |events| - 1;
      exists r :: Reaches(from, events[..n], r) && Possible(r, events[n]) && s == Next(r, events[n])
  }

  // ----- what a step leaves alone

  /** Rows stay, their owners and creation never change, and used and revoked marks are never taken back. */
  ghost predicate TicketsKept(a: Tickets, b: Tickets) {
    forall id | id in a :: id in b && b[id].user == a[id].user && (a[id].usedAt.Some? ==> b[id].usedAt.Some?)
  }

  ghost predicate SessionsKept(a: Sessions, b: Sessions) {
    forall id | id in a ::
      && id in b && b[id].user == a[id].user && b[id].createdAt == a[id].createdAt
      && (!Live(a[id]) ==> !Live(b[id]))
  }

  lemma {:induction false} RetireKeeps(t: Tickets, id: Id, user: Id, now: int)
    requires Spend(t, id, now).Some?
    ensures TicketsKept(t, RetireAll(Spend(t, id, now).value, user, now))
  {
  }

  lemma {:induction false} RevokeKeeps(all: Sessions, user: Id, keep: Option<Id>, now: int)
    ensures SessionsKept(all, RevokeOthers(all, user, keep, now))
  {
  }

  lemma {:induction false} InvitesStay(s: System, e: Event)
    ensures TicketsKept(s.db.invites, Next(s, e).db.invites)
  {
  }

  lemma {:induction false} TokensStay(s: System, e: Event)
    ensures TicketsKept(s.db.tokens, Next(s, e).db.tokens)
  {
    if e.Recover? && Spend(s.db.tokens, e.id, e.now).Some? {
      RetireKeeps(s.db.tokens, e.id, e.user, e.now);
    }
  }

  lemma {:induction false} StartKeeps(all: Sessions, id: Id, user: Id, access: Hash, refresh: Hash, now: int)
    ensures SessionsKept(all, Start(all, id, user, access, refresh, now))
  {
  }

  lemma {:induction false} RotateKeeps(
    all: Sessions, id: Id, refresh: Hash, newAccess: Hash, newRefresh: Hash, now: int)
    requires Rotate(all, id, refresh, newAccess, newRefresh, now).Some?
    ensures SessionsKept(all, Rotate(all, id, refresh, newAccess, newRefresh, now).value)
  {
  }

  lemma {:induction false} TouchKeeps(all: Sessions, id: Id, now: int)
    ensures SessionsKept(all, Touch(all, id, now)) && SessionsKept(all, Revoke(all, id, now))
  {
  }

  lemma {:induction false} StartedStay(s: System, e: Event)
    requires e.CreateSession?
    ensures SessionsKept(s.db.sessions, Next(s, e).db.sessions)
  {
    StartKeeps(s.db.sessions, e.id, e.user, e.access, e.refresh, e.now);
  }

  lemma {:induction false} ExchangedStay(s: System, e: Event)
    requires e.Exchange?
    ensures SessionsKept(s.db.sessions, Next(s, e).db.sessions)
  {
    if Rotate(s.db.sessions, e.id, e.refresh, e.newAccess, e.newRefresh, e.now).Some? {
      RotateKeeps(s.db.sessions, e.id, e.refresh, e.newAccess, e.newRefresh, e.now);
    }
  }

  lemma {:induction false} RecoveredStay(s: System, e: Event)
    requires e.Recover?
    ensures SessionsKept(s.db.sessions, Next(s, e).db.sessions)
  {
    RevokeKeeps(s.db.sessions, e.user, None, e.now);
  }

  lemma {:induction false} PasswordStay(s: System, e: Event)
    requires e.ChangePassword?
    ensures SessionsKept(s.db.sessions, Next(s, e).db.sessions)
  {
    RevokeKeeps(s.db.sessions, e.user, e.keep, e.now);
  }

  lemma {:induction false} StatusStay(s: System, e: Event)
    requires e.ChangeStatus?
    ensures SessionsKept(s.db.sessions, Next(s, e).db.sessions)
  {
    RevokeKeeps(s.db.sessions, e.user, None, e.now);
  }

  lemma {:induction false} ResetStay(s: System, e: Event)
    requires e.Reset?
    ensures SessionsKept(s.db.sessions, Next(s, e).db.sessions)
  {
    RevokeKeeps(s.db.sessions, e.user, None, e.now);
  }

  lemma {:induction false} OneRowStays(s: System, e: Event)
    requires e.TouchOne? || e.RevokeOne?
    ensures SessionsKept(s.db.sessions, Next(s, e).db.sessions)
  {
    TouchKeeps(s.db.sessions, e.id, e.now);
  }

  lemma {:induction false} SessionsStay(s: System, e: Event)
    ensures SessionsKept(s.db.sessions, Next(s, e).db.sessions)
  {
    if e.CreateSession? {
      StartedStay(s, e);
    } else if e.Exchange? {
      ExchangedStay(s, e);
    } else if e.Recover? {
      RecoveredStay(s, e);
    } else if e.ChangePassword? {
      PasswordStay(s, e);
    } else if e.ChangeStatus? {
      StatusStay(s, e);
    } else if e.Reset? {
      ResetStay(s, e);
    } else if e.TouchOne? {
      OneRowStays(s, e);
    } else if e.RevokeOne? {
      OneRowStays(s, e);
    }
  }

  lemma {:induction false} StepKeeps(s: System, e: Event)
    ensures TicketsKept(s.db.invites, Next(s, e).db.invites)
    ensures TicketsKept(s.db.tokens, Next(s, e).db.tokens)
    ensures SessionsKept(s.db.sessions, Next(s, e).db.sessions)
  {
    InvitesStay(s, e);
    TokensStay(s, e);
    SessionsStay(s, e);
  }

  // ----- what the log can say

  /** What the database shows of something that has happened. */
  ghost predicate Recorded(s: System, x: Log) {
    match x
    case Activated(id) => id in s.db.invites && s.db.invites[id].usedAt.Some?
    case Completed(id) => id in s.db.tokens && s.db.tokens[id].usedAt.Some?
    case Exchanged(refresh) =>
      refresh in s.issued && forall id | id in s.db.sessions :: s.db.sessions[id].refresh != refresh
    case Accepted(id, at) => id in s.db.sessions && at <= s.db.sessions[id].createdAt + REFRESH_LIFETIME
  }

  /** Every session's refresh token was handed out, and to that session only. */
  ghost predicate RefreshSound(s: System) {
    && (forall id | id in s.db.sessions :: s.db.sessions[id].refresh in s.issued)
    && (forall a, b | a in s.db.sessions && b in s.db.sessions && a != b ::
          s.db.sessions[a].refresh != s.db.sessions[b].refresh)
  }

  ghost predicate FoundSound(s: System) {
    forall f | f in s.found ::
      match f
      case AnInvite(id, user) => id in s.db.invites && s.db.invites[id].user == user
      case AToken(id, user) => id in s.db.tokens && s.db.tokens[id].user == user
      case ARefresh(id, refresh) => id in s.db.sessions && refresh in s.issued
  }

  /** Nothing but an accepted request happens twice. */
  ghost predicate Once(log: seq<Log>) {
    forall i, j | 0 <= i < j < |log| && log[i] == log[j] :: log[i].Accepted?
  }

  ghost predicate Invariant(s: System) {
    && RefreshSound(s) && FoundSound(s) && Once(s.log)
    && forall x | x in s.log :: Recorded(s, x)
  }

  lemma {:induction false} SessionStep(s: System, e: Event, id: Id)
    requires id in Next(s, e).db.sessions
    ensures id in s.db.sessions || (e.CreateSession? && e.id == id && Next(s, e).db.sessions[id].refresh == e.refresh)
    ensures id in s.db.sessions ==>
      || Next(s, e).db.sessions[id].refresh == s.db.sessions[id].refresh
      || (e.Exchange? && e.id == id && s.db.sessions[id].refresh == e.refresh
          && Next(s, e).db.sessions[id].refresh == e.newRefresh)
  {
  }

  lemma {:induction false} RefreshStays(s: System, e: Event)
    requires RefreshSound(s) && Possible(s, e)
    ensures RefreshSound(Next(s, e))
  {
    var t := Next(s, e);
    forall id | id in t.db.sessions
      ensures t.db.sessions[id].refresh in t.issued
    {
      SessionStep(s, e, id);
    }
    forall a, b | a in t.db.sessions && b in t.db.sessions && a != b
      ensures t.db.sessions[a].refresh != t.db.sessions[b].refresh
    {
      SessionStep(s, e, a);
      SessionStep(s, e, b);
    }
  }

  lemma {:induction false} FoundStays(s: System, e: Event)
    requires FoundSound(s) && RefreshSound(s)
    ensures FoundSound(Next(s, e))
  {
    StepKeeps(s, e);
  }

  lemma {:induction false} RecordedStays(s: System, e: Event, x: Log)
    requires Recorded(s, x) && RefreshSound(s) && Possible(s, e)
    ensures Recorded(Next(s, e), x)
  {
    StepKeeps(s, e);
    if x.Exchanged? {
      forall id | id in Next(s, e).db.sessions
        ensures Next(s, e).db.sessions[id].refresh != x.refresh
      {
        SessionStep(s, e, id);
      }
    }
  }

  lemma {:induction false} NewlyRecorded(s: System, e: Event, x: Log)
    requires RefreshSound(s) && Possible(s, e) && Happens(s.db, e) == [x]
    ensures Recorded(Next(s, e), x)
    ensures Recorded(s, x) ==> x.Accepted?
  {
    if x.Exchanged? {
      forall id | id in Next(s, e).db.sessions
        ensures Next(s, e).db.sessions[id].refresh != x.refresh
      {
        SessionStep(s, e, id);
        assert id != e.id ==> s.db.sessions[id].refresh != s.db.sessions[e.id].refresh;
      }
    }
  }

  lemma {:induction false} NextKeeps(s: System, e: Event)
    requires Invariant(s) && Possible(s, e)
    ensures Invariant(Next(s, e))
  {
    var t := Next(s, e);
    RefreshStays(s, e);
    FoundStays(s, e);
    forall x | x in t.log
      ensures Recorded(t, x)
    {
      if x in s.log {
        RecordedStays(s, e, x);
      } else {
        NewlyRecorded(s, e, x);
      }
    }
    if Happens(s.db, e) != [] {
      NewlyRecorded(s, e, Happens(s.db, e)[0]);
    }
  }

  lemma {:induction false} EveryRunSound(events: seq<Event>, s: System)
    requires Reaches(START, events, s)
    ensures Invariant(s)
  {
    if events != [] {
      var n := |events| - 1;
      var r :| Reaches(START, events[..n], r) && Possible(r, events[n]) && s == Next(r, events[n]);
      EveryRunSound(events[..n], r);
      NextKeeps(r, events[n]);
    }
  }

  /** Under every interleaving, an invite activates, a token completes and a refresh token is exchanged at most once. */
  lemma {:induction false} EachHappensOnce(events: seq<Event>, s: System, i: nat, j: nat)
    requires Reaches(START, events, s) && i < j < |s.log|
    ensures s.log[i] == s.log[j] ==> s.log[i].Accepted?
  {
    EveryRunSound(events, s);
  }

  /** No session is accepted later than thirty days after it was created. */
  lemma {:induction false} AcceptedWithinLifetime(events: seq<Event>, s: System, id: Id, at: int)
    requires Reaches(START, events, s) && Accepted(id, at) in s.log
    ensures id in s.db.sessions && at <= s.db.sessions[id].createdAt + REFRESH_LIFETIME
  {
    EveryRunSound(events, s);
    assert Recorded(s, Accepted(id, at));
  }

  /** A completion retires every token of the user and ends every session the user has. */
  lemma {:induction false} CompletionRetires(events: seq<Event>, s: System, e: Event, id: Id)
    requires Reaches(START, events, s) && Possible(s, e)
    requires e.Recover? && Happens(s.db, e) == [Completed(e.id)]
    ensures e.id in s.db.tokens && s.db.tokens[e.id].user == e.user
    ensures id in s.db.tokens && s.db.tokens[id].user == e.user ==>
      id in Next(s, e).db.tokens && Next(s, e).db.tokens[id].usedAt.Some?
    ensures id in s.db.sessions && s.db.sessions[id].user == e.user ==>
      id in Next(s, e).db.sessions && !Live(Next(s, e).db.sessions[id])
  {
    EveryRunSound(events, s);
  }

  lemma {:induction false} RevokedNotAccepted(s: System, e: Event, id: Id)
    requires id in s.db.sessions && !Live(s.db.sessions[id])
    ensures forall x | x in Happens(s.db, e) :: !(x.Accepted? && x.session == id)
  {
  }

  lemma {:induction false} UsedNotCompleted(s: System, e: Event, id: Id)
    requires id in s.db.tokens && s.db.tokens[id].usedAt.Some?
    ensures Completed(id) !in Happens(s.db, e)
  {
  }

  /** A session that is revoked, however it was, is never accepted again. */
  lemma {:induction false} RevokedForGood(s: System, events: seq<Event>, t: System, id: Id)
    requires Reaches(s, events, t) && id in s.db.sessions && !Live(s.db.sessions[id])
    ensures id in t.db.sessions && !Live(t.db.sessions[id])
    ensures s.log <= t.log && forall k | |s.log| <= k < |t.log| :: !(t.log[k].Accepted? && t.log[k].session == id)
  {
    if events != [] {
      var n := |events| - 1;
      var r :| Reaches(s, events[..n], r) && Possible(r, events[n]) && t == Next(r, events[n]);
      RevokedForGood(s, events[..n], r, id);
      SessionsStay(r, events[n]);
      RevokedNotAccepted(r, events[n], id);
      LogGrows(r, events[n]);
    }
  }

  /** A token that is used, by its own completion or by another's, never completes again. */
  lemma {:induction false} UsedForGood(s: System, events: seq<Event>, t: System, id: Id)
    requires Reaches(s, events, t) && id in s.db.tokens && s.db.tokens[id].usedAt.Some?
    ensures id in t.db.tokens && t.db.tokens[id].usedAt.Some?
    ensures s.log <= t.log && forall k | |s.log| <= k < |t.log| :: t.log[k] != Completed(id)
  {
    if events != [] {
      var n := |events| - 1;
      var r :| Reaches(s, events[..n], r) && Possible(r, events[n]) && t == Next(r, events[n]);
      UsedForGood(s, events[..n], r, id);
      TokensStay(r, events[n]);
      UsedNotCompleted(r, events[n], id);
      LogGrows(r, events[n]);
    }
  }

  lemma {:induction false} LogGrows(s: System, e: Event)
    ensures s.log <= Next(s, e).log
    ensures forall k | |s.log| <= k < |Next(s, e).log| :: Next(s, e).log[k] in Happens(s.db, e)
  {
  }
}
