/**
 The client's calls (packages/vault/src/recover.ts, account.ts and enroll.ts) against a server whose answers may be
 refused or lost: what each sends, and what it returns or throws away on each outcome.
 */
module CredentialClient {
  import opened Options
  import opened Credentials
  import opened CredentialRuns

  class Client {
    var server: Server
    var sessions: set<Term>
    var redemptions: set<Redemption>
    var passwords: set<string>
    var codes: set<string>
    ghost var made: Option<(Term, Term)>
    ghost var password: string
    ghost var code: string

    ghost function State(): World
      reads this
    {
      World(server, sessions, redemptions, passwords, codes, made, password, code)
    }

    ghost predicate Valid()
      reads this
    {
      Invariant(State())
    }

    constructor ()
      ensures Valid() && State() == START
    {
      server, sessions, redemptions, passwords, codes := Server(Pending, {}), {}, {}, {}, {};
      made, password, code := None, "", "";
    }

    /** Sends a request the server would answer with `done`; anything may become of it. */
    method Post(done: Option<Server>) returns (heard: Heard, ghost fate: Fate)
      modifies this`server
      ensures server == After(old(server), done, fate) && heard == HeardOf(done, fate)
    {
      var f: Fate := *;
      fate := f;
      if done.Some? && (f.Answered? || f.LostComing?) {
        server := done.value;
      }
      if f.LostGoing? || f.LostComing? {
        heard := Unknown;
      } else if f.Answered? && done.Some? {
        heard := Confirmed;
      } else {
        heard := Rejected;
      }
    }

    method PostEnrolment(typed: string, salt: nat, newCode: string, recoverySalt: nat, serial: nat, loggedIn: bool)
      returns (heard: Heard, ghost event: Event)
      modifies this
      ensures event.Enrolling? && event == Enrolling(typed, salt, newCode, recoverySalt, serial, event.fate, loggedIn)
      ensures heard == HeardOf(Enrolled(old(State()), event), event.fate)
      ensures State() == AfterEnrolling(old(State()), event)
    {
      var userKey := UserKey(serial);
      var p := MakePassword(typed, salt, userKey);
      var r := MakeRecovery(newCode, recoverySalt, userKey);
      passwords := passwords + {typed};
      var done := Enrol(server, p, r, Wrapped(PrivateKey(serial), userKey));
      ghost var fate;
      heard, fate := Post(done);
      if Commits(done, fate) {
        made, password, code := Some((userKey, PrivateKey(serial))), typed, newCode;
      }
      if heard.Confirmed? {
        codes := codes + {newCode};
        if loggedIn {
          sessions := sessions + {userKey};
        }
      }
      event := Enrolling(typed, salt, newCode, recoverySalt, serial, fate, loggedIn);
    }

    /**
     First use of an invite: the keys are made here, and the code is shown once the server has answered, whether or not
     the login that follows succeeds.
     */
    method Enroll(typed: string, salt: nat, newCode: string, recoverySalt: nat, serial: nat)
      returns (shown: Option<(string, bool)>, ghost event: Event)
      requires Valid()
      modifies this
      ensures Valid() && State() == Next(old(State()), event)
      ensures event.Enrolling?
              && event == Enrolling(typed, salt, newCode, recoverySalt, serial, event.fate, event.login)
      ensures shown.Some? <==> HeardOf(Enrolled(old(State()), event), event.fate).Confirmed?
      ensures shown.Some? ==> shown.value == (newCode, event.login)
      ensures shown.Some? ==> Recover(server.account, newCode) == made && made.Some?
    {
      var loggedIn: bool := *;
      var heard;
      heard, event := PostEnrolment(typed, salt, newCode, recoverySalt, serial, loggedIn);
      EnrollingShows(old(State()), event);
      shown := if heard.Confirmed? then Some((newCode, loggedIn)) else None;
    }

    /** Redeems a code: the keys it opens and the token to finish with, or nothing. */
    method RecoverAccount(typed: string, token: nat) returns (session: Option<Redemption>, ghost fate: Fate)
      requires Valid()
      modifies this
      ensures Valid() && State() == Next(old(State()), Redeeming(typed, token, fate))
      ensures session.Some? ==> session.value in redemptions && made.Some? && session.value.userKey == made.value.0
      ensures session.Some? <==> HeardOf(Redeem(old(server), CodeAuth(old(server), typed), token), fate).Confirmed?
      ensures session.Some? ==> session.value.token == token
    {
      ghost var before := State();
      var account := server.account;
      var authHash := CodeAuth(server, typed);
      var done := Redeem(server, authHash, token);
      var heard;
      heard, fate := Post(done);
      RecoveringKeeps(before, Redeeming(typed, token, fate));
      if !heard.Confirmed? {
        return None, fate;
      }
      var keys := Recover(account, typed);
      if keys.None? {
        return None, fate;
      }
      session := Some(Redemption(keys.value.0, token));
      redemptions := redemptions + {session.value};
    }

    method PostCompletion(session: Redemption, typed: string, salt: nat, newCode: string, recoverySalt: nat)
      returns (heard: Heard, ghost event: Event)
      modifies this
      ensures event.Completing? && event == Completing(session, typed, salt, newCode, recoverySalt, event.fate)
      ensures heard == HeardOf(Completed(old(State()), event), event.fate)
      ensures State() == AfterCompleting(old(State()), event)
      ensures heard.Rejected? ==> server == old(server)
    {
      var rotation := MakePassword(typed, salt, session.userKey);
      var blob := MakeRecovery(newCode, recoverySalt, session.userKey);
      passwords := passwords + {typed};
      var done := Complete(server, session.token, rotation, blob);
      ghost var fate;
      heard, fate := Post(done);
      if Commits(done, fate) {
        password, code := typed, newCode;
      }
      if !heard.Rejected? {
        codes := codes + {newCode};
      }
      event := Completing(session, typed, salt, newCode, recoverySalt, fate);
    }

    /**
     A new password and a new code for the recovered key. Only a refusal throws the code away; without an answer it is
     returned unconfirmed.
     */
    method CompleteRecovery(session: Redemption, typed: string, salt: nat, newCode: string, recoverySalt: nat)
      returns (outcome: Option<(string, bool)>, ghost event: Event)
      requires Valid() && session in redemptions
      modifies this
      ensures Valid() && State() == Next(old(State()), event)
      ensures event.Completing? && event == Completing(session, typed, salt, newCode, recoverySalt, event.fate)
      ensures outcome.None? ==> server == old(server)
      ensures outcome.None? <==> HeardOf(Completed(old(State()), event), event.fate).Rejected?
      ensures outcome.Some? ==>
        (outcome.value.1 <==> HeardOf(Completed(old(State()), event), event.fate).Confirmed?)
      ensures outcome.Some? ==> outcome.value.0 == newCode && newCode in codes
      ensures outcome.Some? && outcome.value.1
              ==> Recover(server.account, newCode) == Unlock(server.account, typed) == made
    {
      var heard;
      heard, event := PostCompletion(session, typed, salt, newCode, recoverySalt);
      CompletingShows(old(State()), event);
      outcome := if heard.Rejected? then None else Some((newCode, heard.Confirmed?));
    }

    method PostNewCode(current: string, newCode: string, recoverySalt: nat, session: Term)
      returns (heard: Heard, ghost event: Event)
      modifies this
      ensures event.NewCode? && event == NewCode(current, newCode, recoverySalt, session, event.fate)
      ensures heard == HeardOf(Reissued(old(State()), event), event.fate)
      ensures State() == AfterNewCode(old(State()), event)
    {
      var proof := CurrentAuth(server, current);
      var blob := MakeRecovery(newCode, recoverySalt, session);
      var done := RotateRecovery(server, proof, blob);
      ghost var fate;
      heard, fate := Post(done);
      if Commits(done, fate) {
        code := newCode;
      }
      if heard.Confirmed? {
        codes := codes + {newCode};
      }
      event := NewCode(current, newCode, recoverySalt, session, fate);
    }

    /** A new recovery code. An error of any kind discards it. */
    method RegenerateRecoveryCode(current: string, newCode: string, recoverySalt: nat, session: Term)
      returns (shown: Option<string>, ghost event: Event)
      requires Valid() && session in sessions
      modifies this
      ensures Valid() && State() == Next(old(State()), event)
      ensures event.NewCode? && event == NewCode(current, newCode, recoverySalt, session, event.fate)
      ensures shown.Some? <==> HeardOf(Reissued(old(State()), event), event.fate).Confirmed?
      ensures shown.Some? ==> shown.value == newCode && newCode in codes
    {
      var heard;
      heard, event := PostNewCode(current, newCode, recoverySalt, session);
      RotatingKeeps(old(State()), event);
      shown := if heard.Confirmed? then Some(newCode) else None;
    }

    method PostPassword(current: string, typed: string, salt: nat, session: Term)
      returns (heard: Heard, ghost event: Event)
      modifies this
      ensures event.ChangingPassword? && event == ChangingPassword(current, typed, salt, session, event.fate)
      ensures heard == HeardOf(Changed(old(State()), event), event.fate)
      ensures State() == AfterChanging(old(State()), event)
    {
      var proof := CurrentAuth(server, current);
      var rotation := MakePassword(typed, salt, session);
      passwords := passwords + {typed};
      var done := RotatePassword(server, proof, rotation);
      ghost var fate;
      heard, fate := Post(done);
      if Commits(done, fate) {
        password := typed;
      }
      event := ChangingPassword(current, typed, salt, session, fate);
    }

    /** A new master password for the key an unlocked session holds. */
    method ChangeMasterPassword(current: string, typed: string, salt: nat, session: Term)
      returns (heard: Heard, ghost event: Event)
      requires Valid() && session in sessions
      modifies this
      ensures Valid() && State() == Next(old(State()), event)
      ensures event.ChangingPassword? && event == ChangingPassword(current, typed, salt, session, event.fate)
      ensures heard == HeardOf(Changed(old(State()), event), event.fate)
    {
      heard, event := PostPassword(current, typed, salt, session);
      RotatingKeeps(old(State()), event);
    }
  }
}
