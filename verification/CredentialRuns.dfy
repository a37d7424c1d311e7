/**
 Whole lives of an account: enrolment, password changes, new recovery codes and redeemed ones, from any number of the
 user's devices, with every request answered, refused or lost.
 */
module CredentialRuns {
  import opened Options
  import opened Credentials

  /**
   What becomes of a request: answered, refused before the server acts on it (a throttle, an expired token), lost on the
   way there, or carried out with the answer lost.
   */
  datatype Fate = Answered | Refused | LostGoing | LostComing

  /** What the client is left with. A refusal is a 4xx; unknown is a lost connection or a 5xx. */
  datatype Heard = Confirmed | Rejected | Unknown

  datatype Redemption = Redemption(userKey: Term, token: nat)

  /**
   The server; the user keys in unlocked sessions and the redemptions in progress; the passwords and codes the user has
   in hand; and, for the record, what was made at enrolment and which password and code were last written.
   */
  datatype World = World(
    server: Server,
    sessions: set<Term>,
    redemptions: set<Redemption>,
    passwords: set<string>,
    codes: set<string>,
    made: Option<(Term, Term)>,
    password: string,
    code: string)

  const START: World := World(Server(Pending, {}), {}, {}, {}, {}, None, "", "")

  datatype Event =
    | Enrolling(typed: string, salt: nat, code: string, recoverySalt: nat, serial: nat, fate: Fate, login: bool)
    | Unlocking(typed: string)
    | ChangingPassword(current: string, typed: string, salt: nat, session: Term, fate: Fate)
    | NewCode(current: string, code: string, recoverySalt: nat, session: Term, fate: Fate)
    | Redeeming(code: string, token: nat, fate: Fate)
    | Completing(redemption: Redemption, typed: string, salt: nat, code: string, recoverySalt: nat, fate: Fate)
    | ForgettingPassword(typed: string)
    | LosingCode(code: string)

  /** The server after a request that it would answer with `done`. */
  function After(s: Server, done: Option<Server>, fate: Fate): Server {
    if done.Some? && (fate.Answered? || fate.LostComing?) then done.value else s
  }

  predicate Commits(done: Option<Server>, fate: Fate) {
    done.Some? && (fate.Answered? || fate.LostComing?)
  }

  function HeardOf(done: Option<Server>, fate: Fate): Heard {
    if fate.LostGoing? || fate.LostComing? then Unknown
    else if fate.Answered? && done.Some? then Confirmed
    else Rejected
  }

  /** The current auth half, made from the salt and parameters prelogin gives. */
  function CurrentAuth(s: Server, password: string): Term {
    if s.account.Active?
    then AuthHalf(Derived(password, s.account.password.salt, s.account.password.params))
    else AuthHalf(Derived(password, 0, DEFAULT_PARAMS))
  }

  function CodeAuth(s: Server, code: string): Term {
    if s.account.Active?
    then RecoveryAuthHalf(Derived(code, s.account.recovery.salt, s.account.recovery.params))
    else RecoveryAuthHalf(Derived(code, 0, DEFAULT_PARAMS))
  }

  function Enrolled(w: World, e: Event): Option<Server>
    requires e.Enrolling?
  {
    var userKey := UserKey(e.serial);
    Enrol(w.server, MakePassword(e.typed, e.salt, userKey), MakeRecovery(e.code, e.recoverySalt, userKey),
          Wrapped(PrivateKey(e.serial), userKey))
  }

  function Changed(w: World, e: Event): Option<Server>
    requires e.ChangingPassword?
  {
    RotatePassword(w.server, CurrentAuth(w.server, e.current), MakePassword(e.typed, e.salt, e.session))
  }

  function Reissued(w: World, e: Event): Option<Server>
    requires e.NewCode?
  {
    RotateRecovery(w.server, CurrentAuth(w.server, e.current), MakeRecovery(e.code, e.recoverySalt, e.session))
  }

  function Redeemed(w: World, e: Event): Option<Server>
    requires e.Redeeming?
  {
    Redeem(w.server, CodeAuth(w.server, e.code), e.token)
  }

  function Completed(w: World, e: Event): Option<Server>
    requires e.Completing?
  {
    Complete(w.server, e.redemption.token, MakePassword(e.typed, e.salt, e.redemption.userKey),
             MakeRecovery(e.code, e.recoverySalt, e.redemption.userKey))
  }

  /** A session or redemption has to exist before it is used. */
  predicate Possible(w: World, e: Event) {
    match e
    case ChangingPassword(_, _, _, session, _) => session in w.sessions
    case NewCode(_, _, _, session, _) => session in w.sessions
    case Completing(redemption, _, _, _, _, _) => redemption in w.redemptions
    case _ => true
  }

  function AfterEnrolling(w: World, e: Event): World
    requires e.Enrolling?
  {
    var done := Enrolled(w, e);
    var t := w.(server := After(w.server, done, e.fate), passwords := w.passwords + {e.typed});
    var u := if Commits(done, e.fate)
             then t.(made := Some((UserKey(e.serial), PrivateKey(e.serial))), password := e.typed, code := e.code)
             else t;
    // The code is returned once the answer came, whether or not the login that follows succeeds.
    if !HeardOf(done, e.fate).Confirmed? then u
    else u.(codes := u.codes + {e.code}, sessions := if e.login then u.sessions + {UserKey(e.serial)} else u.sessions)
  }

  function AfterUnlocking(w: World, typed: string): World {
    match Unlock(w.server.account, typed)
    case None => w
    case Some((userKey, _)) => w.(sessions := w.sessions + {userKey})
  }

  function AfterChanging(w: World, e: Event): World
    requires e.ChangingPassword?
  {
    var done := Changed(w, e);
    var t := w.(server := After(w.server, done, e.fate), passwords := w.passwords + {e.typed});
    if Commits(done, e.fate) then t.(password := e.typed) else t
  }

  function AfterNewCode(w: World, e: Event): World
    requires e.NewCode?
  {
    var done := Reissued(w, e);
    var t := w.(server := After(w.server, done, e.fate));
    var u := if Commits(done, e.fate) then t.(code := e.code) else t;
    // An error of any kind discards the code.
    if HeardOf(done, e.fate).Confirmed? then u.(codes := u.codes + {e.code}) else u
  }

  function AfterRedeeming(w: World, e: Event): World
    requires e.Redeeming?
  {
    var done := Redeemed(w, e);
    var t := w.(server := After(w.server, done, e.fate));
    if !HeardOf(done, e.fate).Confirmed? then t
    else
      match Recover(w.server.account, e.code)
      case None => t
      case Some((userKey, _)) => t.(redemptions := t.redemptions + {Redemption(userKey, e.token)})
  }

  function AfterCompleting(w: World, e: Event): World
    requires e.Completing?
  {
    var done := Completed(w, e);
    var t := w.(server := After(w.server, done, e.fate), passwords := w.passwords + {e.typed});
    var u := if Commits(done, e.fate) then t.(password := e.typed, code := e.code) else t;
    // Only a refusal discards the code.
    if HeardOf(done, e.fate).Rejected? then u else u.(codes := u.codes + {e.code})
  }

  function Next(w: World, e: Event): World {
    match e
    case Enrolling(_, _, _, _, _, _, _) => AfterEnrolling(w, e)
    case Unlocking(typed) => AfterUnlocking(w, typed)
    case ChangingPassword(_, _, _, _, _) => AfterChanging(w, e)
    case NewCode(_, _, _, _, _) => AfterNewCode(w, e)
    case Redeeming(_, _, _) => AfterRedeeming(w, e)
    case Completing(_, _, _, _, _, _) => AfterCompleting(w, e)
    case ForgettingPassword(typed) => w.(passwords := w.passwords - {typed})
    case LosingCode(code) => w.(codes := w.codes - {code})
  }

  /** The world after a sequence of events. */
  ghost function Run(events: seq<Event>): World {
    if events == [] then START else Next(Run(events[..|events| - 1]), events[|events| - 1])
  }

  /** Every session and redemption used was there. */
  ghost predicate Runs(events: seq<Event>) {
    forall k | 0 <= k < |events| :: Possible(Run(events[..k]), events[k])
  }

  lemma {:induction false} RunsPrefix(events: seq<Event>)
    requires Runs(events) && events != []
    ensures var n := |events| - 1;
            Runs(events[..n]) && Possible(Run(events[..n]), events[n])
                && Run(events) == Next(Run(events[..n]), events[n])
  {
    var n := |events| - 1;
    forall k | 0 <= k < n
      ensures Possible(Run(events[..n][..k]), events[..n][k])
    {
      assert events[..n][..k] == events[..k];
      assert Possible(Run(events[..k]), events[k]);
    }
    assert Possible(Run(events[..n]), events[n]);
  }

  /** Every key the user's devices hold is the one made at enrolment, and the account is sealed around it. */
  ghost predicate Invariant(w: World) {
    && (w.server.account.Pending? <==> w.made.None?)
    && (w.made.None? ==> w.sessions == {} && w.redemptions == {})
    && (w.made.Some? ==>
          && Sealed(w.server.account, w.made.value.0, w.made.value.1, w.password, w.code)
          && (forall k | k in w.sessions :: k == w.made.value.0)
          && (forall r | r in w.redemptions :: r.userKey == w.made.value.0))
  }

  lemma {:induction false} EnrollingKeeps(w: World, e: Event)
    requires Invariant(w) && e.Enrolling?
    ensures Invariant(AfterEnrolling(w, e)) && (w.made.Some? ==> AfterEnrolling(w, e).made == w.made)
  {
  }

  lemma {:induction false} RotatingKeeps(w: World, e: Event)
    requires Invariant(w) && Possible(w, e) && (e.ChangingPassword? || e.NewCode?)
    ensures Invariant(Next(w, e)) && Next(w, e).made == w.made
  {
  }

  lemma {:induction false} RecoveringKeeps(w: World, e: Event)
    requires Invariant(w) && Possible(w, e) && (e.Redeeming? || e.Completing?)
    ensures Invariant(Next(w, e)) && Next(w, e).made == w.made
  {
    if w.made.Some? && e.Redeeming? {
      SealedOpens(w.server.account, w.made.value.0, w.made.value.1, w.password, w.code, e.code);
    }
  }

  lemma {:induction false} UnlockingKeeps(w: World, typed: string)
    requires Invariant(w)
    ensures Invariant(AfterUnlocking(w, typed)) && AfterUnlocking(w, typed).made == w.made
  {
    if w.made.Some? {
      SealedOpens(w.server.account, w.made.value.0, w.made.value.1, w.password, w.code, typed);
    }
  }

  lemma {:induction false} NextKeeps(w: World, e: Event)
    requires Invariant(w) && Possible(w, e)
    ensures Invariant(Next(w, e))
    ensures w.made.Some? ==> Next(w, e).made == w.made
  {
    match e
    case Enrolling(_, _, _, _, _, _, _) => EnrollingKeeps(w, e);
    case Unlocking(typed) => UnlockingKeeps(w, typed);
    case ChangingPassword(_, _, _, _, _) => RotatingKeeps(w, e);
    case NewCode(_, _, _, _, _) => RotatingKeeps(w, e);
    case Redeeming(_, _, _) => RecoveringKeeps(w, e);
    case Completing(_, _, _, _, _, _) => RecoveringKeeps(w, e);
    case _ =>
  }

  lemma {:induction false} EveryRunSealed(events: seq<Event>)
    requires Runs(events)
    ensures Invariant(Run(events))
  {
    if events != [] {
      var n := |events| - 1;
      RunsPrefix(events);
      EveryRunSealed(events[..n]);
      NextKeeps(Run(events[..n]), events[n]);
    }
  }

  /** In every run, the current password and the current code open the keys made at enrolment, and no other does. */
  lemma {:induction false} EveryRunOpens(events: seq<Event>, s: string)
    requires Runs(events) && Run(events).made.Some?
    ensures var w := Run(events);
            && Unlock(w.server.account, s) == (if s == w.password then w.made else None)
            && Recover(w.server.account, s) == (if s == w.code then w.made else None)
  {
    var w := Run(events);
    EveryRunSealed(events);
    SealedOpens(w.server.account, w.made.value.0, w.made.value.1, w.password, w.code, s);
  }

  lemma {:induction false} CurrentOpens(w: World)
    requires Invariant(w) && w.made.Some?
    ensures Unlock(w.server.account, w.password) == Recover(w.server.account, w.code) == w.made
  {
    SealedOpens(w.server.account, w.made.value.0, w.made.value.1, w.password, w.code, w.password);
    SealedOpens(w.server.account, w.made.value.0, w.made.value.1, w.password, w.code, w.code);
  }

  /** What a confirmed enrolment shows opens the account. */
  lemma {:induction false} EnrollingShows(w: World, e: Event)
    requires Invariant(w) && e.Enrolling?
    ensures Invariant(AfterEnrolling(w, e))
    ensures HeardOf(Enrolled(w, e), e.fate).Confirmed? ==>
      AfterEnrolling(w, e).made.Some?
          && Recover(AfterEnrolling(w, e).server.account, e.code) == AfterEnrolling(w, e).made
  {
    EnrollingKeeps(w, e);
    if HeardOf(Enrolled(w, e), e.fate).Confirmed? {
      CurrentOpens(AfterEnrolling(w, e));
    }
  }

  /** So does what a confirmed recovery returns, and the password typed. */
  lemma {:induction false} CompletingShows(w: World, e: Event)
    requires Invariant(w) && e.Completing? && Possible(w, e)
    ensures Invariant(AfterCompleting(w, e))
    ensures HeardOf(Completed(w, e), e.fate).Confirmed? ==>
      var a := AfterCompleting(w, e).server.account;
      Recover(a, e.code) == Unlock(a, e.typed) == AfterCompleting(w, e).made
  {
    RecoveringKeeps(w, e);
    if HeardOf(Completed(w, e), e.fate).Confirmed? {
      CurrentOpens(AfterCompleting(w, e));
    }
  }

  // ----- which requests the server grants

  /**
   In every run the server grants an enrolment only once, a change only to who has the current password, a redemption
   only to who has the current code, and a completion only to a live token; and it grants those.
   */
  lemma {:induction false} GrantedIff(events: seq<Event>, e: Event)
    requires Runs(events)
    ensures var w := Run(events);
            && (e.Enrolling? ==> (Enrolled(w, e).Some? <==> w.made.None?))
            && (e.ChangingPassword? ==> (Changed(w, e).Some? <==> w.made.Some? && e.current == w.password))
            && (e.NewCode? ==> (Reissued(w, e).Some? <==> w.made.Some? && e.current == w.password))
            && (e.Redeeming? ==> (Redeemed(w, e).Some? <==> w.made.Some? && e.code == w.code))
            && (e.Completing? ==> (Completed(w, e).Some? <==> w.made.Some? && e.redemption.token in w.server.tokens))
  {
    EveryRunSealed(events);
  }

  /** What a granted request gives: a session by the current password, a redemption by the current code. */
  lemma {:induction false} OpenedIff(events: seq<Event>, e: Event)
    requires Runs(events) && Run(events).made.Some?
    ensures var w := Run(events);
            && (e.Unlocking? ==>
                  Next(w, e).sessions == if e.typed == w.password then w.sessions + {w.made.value.0} else w.sessions)
            && (e.Redeeming? && e.fate.Answered? && e.code == w.code ==>
                  && Next(w, e).redemptions == w.redemptions + {Redemption(w.made.value.0, e.token)}
                  && Next(w, e).server.tokens == w.server.tokens + {e.token})
            && (e.Redeeming? && e.code != w.code ==> Next(w, e) == w)
  {
    var w := Run(events);
    EveryRunSealed(events);
    if e.Unlocking? {
      EveryRunOpens(events, e.typed);
    } else if e.Redeeming? {
      EveryRunOpens(events, e.code);
      GrantedIff(events, e);
    }
  }

  /** A completion spends every token there is. */
  lemma {:induction false} CompletionSpends(w: World, e: Event)
    requires e.Completing? && Commits(Completed(w, e), e.fate)
    ensures Next(w, e).server.tokens == {}
  {
  }

  // ----- what the user still holds

  ghost predicate HoldsPassword(w: World) {
    exists p :: p in w.passwords && Unlock(w.server.account, p) == w.made && w.made.Some?
  }

  ghost predicate HoldsCode(w: World) {
    exists c :: c in w.codes && Recover(w.server.account, c) == w.made && w.made.Some?
  }

  lemma {:induction false} HoldsCurrent(w: World)
    requires Invariant(w) && w.made.Some?
    ensures HoldsPassword(w) <==> w.password in w.passwords
    ensures HoldsCode(w) <==> w.code in w.codes
  {
    forall s: string
      ensures Unlock(w.server.account, s) == (if s == w.password then w.made else None)
      ensures Recover(w.server.account, s) == (if s == w.code then w.made else None)
    {
      SealedOpens(w.server.account, w.made.value.0, w.made.value.1, w.password, w.code, s);
    }
  }

  /** Whatever becomes of a request, a user who holds the password still holds one that opens the account. */
  lemma {:induction false} PasswordNeverLost(events: seq<Event>, e: Event)
    requires Runs(events) && Possible(Run(events), e) && HoldsPassword(Run(events))
    requires !(e.ForgettingPassword? && e.typed == Run(events).password)
    ensures HoldsPassword(Next(Run(events), e))
  {
    var w := Run(events);
    EveryRunSealed(events);
    HoldsCurrent(w);
    NextKeeps(w, e);
    HoldsCurrent(Next(w, e));
  }

  /** In every run in which nothing is forgotten, a user who has enrolled holds a password that opens the account. */
  lemma {:induction false} EveryRunHoldsPassword(events: seq<Event>)
    requires Runs(events) && Run(events).made.Some?
    requires forall k | 0 <= k < |events| :: !events[k].ForgettingPassword?
    ensures HoldsPassword(Run(events))
  {
    var n := |events| - 1;
    RunsPrefix(events);
    EveryRunSealed(events);
    HoldsCurrent(Run(events));
    if Run(events[..n]).made.Some? {
      EveryRunHoldsPassword(events[..n]);
      PasswordNeverLost(events[..n], events[n]);
    }
  }

  // ----- codes

  predicate Generates(e: Event) {
    e.Enrolling? || e.NewCode? || e.Completing?
  }

  /** The event makes its new code the account's. */
  predicate WritesCode(w: World, e: Event) {
    || (e.Enrolling? && Commits(Enrolled(w, e), e.fate))
    || (e.NewCode? && Commits(Reissued(w, e), e.fate))
    || (e.Completing? && Commits(Completed(w, e), e.fate))
  }

  /** The code was written and the answer that would have shown it was lost; a recovery shows it all the same. */
  predicate Swallowed(w: World, e: Event) {
    WritesCode(w, e) && !e.Completing? && e.fate.LostComing?
  }

  /** A recovery that was not answered and did not happen still hands over the code it made. */
  predicate HandsOverAnyway(w: World, e: Event) {
    e.Completing? && !WritesCode(w, e) && HeardOf(Completed(w, e), e.fate).Unknown?
  }

  /**
   What every event does to the user's hold on the current code. A code that is written is held unless its answer was
   swallowed; nothing else takes it away but mislaying it. (The two clauses about equal codes are for a generator that
   repeats itself.)
   */
  lemma {:induction false} CodeHeldIff(events: seq<Event>, e: Event)
    requires Runs(events) && Possible(Run(events), e)
    ensures var w := Run(events);
            HoldsCode(Next(w, e)) <==>
              (if WritesCode(w, e) then !Swallowed(w, e) || e.code in w.codes
               else if e.LosingCode? then HoldsCode(w) && e.code != w.code
               else HoldsCode(w) || (HandsOverAnyway(w, e) && w.made.Some? && e.code == w.code))
  {
    var w := Run(events);
    EveryRunSealed(events);
    NextKeeps(w, e);
    if w.made.Some? {
      HoldsCurrent(w);
    }
    if Next(w, e).made.Some? {
      HoldsCurrent(Next(w, e));
    }
  }

  /** A completion leaves the user with a code that opens the account, whether it commits or its answer arrives. */
  lemma {:induction false} CompletionKeepsCode(events: seq<Event>, e: Event)
    requires Runs(events) && Possible(Run(events), e) && e.Completing? && HoldsCode(Run(events))
    ensures HoldsCode(Next(Run(events), e))
    ensures Commits(Completed(Run(events), e), e.fate) ==> HoldsPassword(Next(Run(events), e))
  {
    EveryRunSealed(events);
    CodeHeldIff(events, e);
    NextKeeps(Run(events), e);
    HoldsCurrent(Next(Run(events), e));
  }

  /** The last event that wrote a code, or -1. */
  ghost function LastWrite(events: seq<Event>): (k: int)
    ensures -1 <= k < |events| && (k >= 0 ==> Generates(events[k]))
  {
    if events == [] then -1
    else
      var n := |events| - 1;
      if WritesCode(Run(events[..n]), events[n]) then n else LastWrite(events[..n])
  }

  /** The code on record, and whether there is an account, change exactly with a written code. */
  lemma {:induction false} NextCode(w: World, e: Event)
    requires Invariant(w)
    ensures Next(w, e).code == if WritesCode(w, e) then e.code else w.code
    ensures Next(w, e).made.Some? <==> w.made.Some? || WritesCode(w, e)
  {
  }

  lemma {:induction false} LastWriteIsCurrent(events: seq<Event>)
    requires Runs(events)
    ensures Run(events).made.Some? <==> LastWrite(events) >= 0
    ensures LastWrite(events) >= 0 ==> Run(events).code == events[LastWrite(events)].code
  {
    if events != [] {
      var n := |events| - 1;
      RunsPrefix(events);
      EveryRunSealed(events[..n]);
      LastWriteIsCurrent(events[..n]);
      NextCode(Run(events[..n]), events[n]);
    }
  }

  ghost predicate KeptSince(events: seq<Event>, k: nat, code: string) {
    forall j | k < j < |events| :: events[j] != LosingCode(code)
  }

  lemma {:induction false} KeptOnward(events: seq<Event>, k: nat, code: string)
    requires k < |events| - 1
    ensures KeptSince(events, k, code) <==>
              KeptSince(events[..|events| - 1], k, code) && events[|events| - 1] != LosingCode(code)
  {
    var n := |events| - 1;
    var before := events[..n];
    if KeptSince(before, k, code) && events[n] != LosingCode(code) {
      forall j | k < j < |events|
        ensures events[j] != LosingCode(code)
      {
        if j < n {
          assert before[j] == events[j];
        }
      }
    }
  }

  /** The user was shown the account's present code and has not mislaid it since. */
  ghost predicate ShownAndKept(events: seq<Event>) {
    var k := LastWrite(events);
    k >= 0 && !Swallowed(Run(events[..k]), events[k]) && KeptSince(events, k, events[k].code)
  }

  lemma {:induction false} ShownWhenWritten(events: seq<Event>)
    requires events != [] && WritesCode(Run(events[..|events| - 1]), events[|events| - 1])
    ensures ShownAndKept(events) <==> !Swallowed(Run(events[..|events| - 1]), events[|events| - 1])
  {
    assert LastWrite(events) == |events| - 1;
  }

  lemma {:induction false} ShownStill(events: seq<Event>)
    requires Runs(events) && events != [] && !WritesCode(Run(events[..|events| - 1]), events[|events| - 1])
    ensures ShownAndKept(events) <==>
              ShownAndKept(events[..|events| - 1])
                  && events[|events| - 1] != LosingCode(Run(events[..|events| - 1]).code)
  {
    var n := |events| - 1;
    var before := events[..n];
    var k := LastWrite(before);
    RunsPrefix(events);
    LastWriteIsCurrent(before);
    assert LastWrite(events) == k;
    if k >= 0 {
      assert before[k] == events[k] && before[..k] == events[..k];
      KeptOnward(events, k, events[k].code);
    }
  }

  /** Then the user holds a code that opens the account, in every run. */
  lemma {:induction false} EveryRunHoldsCode(events: seq<Event>)
    requires Runs(events) && ShownAndKept(events)
    ensures HoldsCode(Run(events))
  {
    var n := |events| - 1;
    RunsPrefix(events);
    CodeHeldIff(events[..n], events[n]);
    if WritesCode(Run(events[..n]), events[n]) {
      ShownWhenWritten(events);
    } else {
      ShownStill(events);
      EveryRunHoldsCode(events[..n]);
    }
  }

  /** No code is generated twice: a code is 125 random bits. */
  ghost predicate FreshCodes(events: seq<Event>) {
    forall i, j | 0 <= i < j < |events| && Generates(events[i]) && Generates(events[j]) ::
        events[i].code != events[j].code
  }

  lemma {:induction false} NextHands(w: World, e: Event, c: string)
    requires c in Next(w, e).codes
    ensures c in w.codes || (Generates(e) && e.code == c)
  {
  }

  lemma {:induction false} HeldWasGenerated(events: seq<Event>, n: nat, c: string)
    requires n <= |events| && c in Run(events[..n]).codes
    ensures exists k :: 0 <= k < n && Generates(events[k]) && events[k].code == c
  {
    if n > 0 {
      assert events[..n][..n - 1] == events[..n - 1];
      NextHands(Run(events[..n - 1]), events[n - 1], c);
      if c in Run(events[..n - 1]).codes {
        HeldWasGenerated(events, n - 1, c);
      }
    }
  }

  lemma {:induction false} NewCodeUnknown(events: seq<Event>)
    requires Runs(events) && FreshCodes(events) && events != [] && Generates(events[|events| - 1])
    ensures var n := |events| - 1;
            events[n].code !in Run(events[..n]).codes
            && (Run(events[..n]).made.Some? ==> events[n].code != Run(events[..n]).code)
  {
    var n := |events| - 1;
    RunsPrefix(events);
    LastWriteIsCurrent(events[..n]);
    if events[n].code in Run(events[..n]).codes {
      HeldWasGenerated(events, n, events[n].code);
    }
  }

  /**
   In every run the user holds a code that opens the account if and only if the last code written was not swallowed, by
   an enrolment or a regeneration whose answer was lost, and has not been mislaid since.
   */
  lemma {:induction false} EveryRunHoldsCodeIff(events: seq<Event>)
    requires Runs(events) && FreshCodes(events)
    ensures HoldsCode(Run(events)) <==> ShownAndKept(events)
  {
    if events != [] {
      var n := |events| - 1;
      var before := events[..n];
      RunsPrefix(events);
      FreshPrefix(events);
      EveryRunHoldsCodeIff(before);
      CodeHeldIff(before, events[n]);
      if WritesCode(Run(before), events[n]) {
        ShownWhenWritten(events);
      } else {
        ShownStill(events);
      }
      if Generates(events[n]) {
        NewCodeUnknown(events);
      }
      if HoldsCode(Run(before)) {
        EveryRunSealed(before);
        HoldsCurrent(Run(before));
      }
    }
  }

  lemma {:induction false} FreshPrefix(events: seq<Event>)
    requires FreshCodes(events) && events != []
    ensures FreshCodes(events[..|events| - 1])
  {
    var before := events[..|events| - 1];
    forall i, j | 0 <= i < j < |before| && Generates(before[i]) && Generates(before[j])
      ensures before[i].code != before[j].code
    {
      assert events[i] == before[i] && events[j] == before[j];
    }
  }

  /** An enrolment that commits and whose answer is lost leaves the user with a password and no code. */
  lemma {:induction false} LostEnrolmentLeavesNoCode(
    typed: string, salt: nat, code: string, recoverySalt: nat, serial: nat)
    ensures var events := [Enrolling(typed, salt, code, recoverySalt, serial, LostComing, false)];
            Runs(events) && Run(events).made.Some? && HoldsPassword(Run(events)) && !HoldsCode(Run(events))
  {
    var e := Enrolling(typed, salt, code, recoverySalt, serial, LostComing, false);
    var events := [e];
    assert events[..0] == [];
    assert Run(events) == Next(START, e);
    EveryRunSealed(events);
    HoldsCurrent(Run(events));
  }
}
