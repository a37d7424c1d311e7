/**
 Lives of an account with administrative resets between them (internal/store/admin.go). A reset returns the account to
 pending and ends its sessions, but leaves its recovery tokens alone, so that a recovery begun before the reset can be
 completed after the user has enrolled anew. What that does to the account, and exactly when it happens.
 */
module ResetRuns {
  import opened Options
  import opened Credentials
  import CR = CredentialRuns

  datatype Event = Ordinary(e: CR.Event) | Resetting

  /**
   The account and its user; the redemptions begun before the last reset; the tokens and key serials used up; and
   whether one of those redemptions was completed against the present account.
   */
  datatype State = State(
    world: CR.World,
    stale: set<CR.Redemption>,
    issued: set<nat>,
    serials: set<nat>,
    crossed: bool)

  const START: State := State(CR.START, {}, {}, {}, false)

  /** Tokens are unique in their table and keys are drawn at random; a redemption may be of any age. */
  predicate Possible(s: State, e: Event) {
    e.Ordinary? ==>
      && (e.e.Redeeming? ==> e.e.token !in s.issued)
      && (e.e.Enrolling? ==> e.e.serial !in s.serials)
      && CR.Possible(s.world.(redemptions := s.world.redemptions + s.stale), e.e)
  }

  predicate Completes(s: State, e: Event) {
    e.Ordinary? && e.e.Completing? && CR.Commits(CR.Completed(s.world, e.e), e.e.fate)
  }

  /** A recovery from before the last reset takes effect. */
  predicate Crosses(s: State, e: Event) {
    Completes(s, e) && e.e.redemption in s.stale
  }

  function AfterReset(w: CR.World): CR.World {
    w.(server := w.server.(account := Pending), sessions := {}, redemptions := {}, made := None)
  }

  function Next(s: State, e: Event): State {
    match e
    case Resetting => s.(world := AfterReset(s.world), stale := s.stale + s.world.redemptions, crossed := false)
    case Ordinary(o) =>
      var w := CR.Next(s.world, o);
      // A completion ends every session.
      State(if Completes(s, e) then w.(sessions := {}) else w,
            s.stale,
            if o.Redeeming? then s.issued + {o.token} else s.issued,
            if o.Enrolling? then s.serials + {o.serial} else s.serials,
            s.crossed || Crosses(s, e))
  }

  ghost function Run(events: seq<Event>): State {
    if events == [] then START else Next(Run(events[..|events| - 1]), events[|events| - 1])
  }

  ghost predicate Runs(events: seq<Event>) {
    forall k | 0 <= k < |events| :: Possible(Run(events[..k]), events[k])
  }

  // ----- the invariant

  /** A key made at some enrolment. */
  predicate KnownKey(s: State, key: Term) {
    key.UserKey? && key.serial in s.serials
  }

  ghost predicate Bounded(s: State) {
    && s.world.server.tokens <= s.issued
    && (forall r | r in s.stale + s.world.redemptions :: r.token in s.issued && KnownKey(s, r.userKey))
    && (s.world.made.Some? ==> KnownKey(s, s.world.made.value.0))
    && (s.world.made.Some? ==> forall r | r in s.stale :: r.userKey != s.world.made.value.0)
  }

  /** Password and code are sealed around `key`, the private key is under another, and nothing is left to mend it. */
  ghost predicate LostTo(s: State, key: Term) {
    && s.world.made.Some? && s.world.made.value.0 != key && s.world.server.account.Active?
    && s.world.server.account.password
       == StorePassword(MakePassword(s.world.password, s.world.server.account.password.salt, key))
    && s.world.server.account.recovery
       == StoreRecovery(MakeRecovery(s.world.code, s.world.server.account.recovery.salt, key))
    && s.world.server.account.encryptedPrivateKey == Wrapped(s.world.made.value.1, s.world.made.value.0)
    && s.world.sessions == {}
    && forall r | r in s.stale + s.world.redemptions :: r.token !in s.world.server.tokens
  }

  ghost predicate Invariant(s: State) {
    Bounded(s) && if s.crossed then exists key :: LostTo(s, key) else CR.Invariant(s.world)
  }

  lemma {:induction false} LostOpensNothing(s: State, key: Term, typed: string)
    requires LostTo(s, key)
    ensures Unlock(s.world.server.account, typed) == Recover(s.world.server.account, typed) == None
  {
  }

  lemma {:induction false} BoundedAfterRedeeming(s: State, e: Event)
    requires Invariant(s) && Possible(s, e) && e.Ordinary? && e.e.Redeeming?
    ensures Bounded(Next(s, e))
  {
    var w := s.world;
    if s.crossed {
      var key :| LostTo(s, key);
      LostOpensNothing(s, key, e.e.code);
    } else if w.made.Some? {
      SealedOpens(w.server.account, w.made.value.0, w.made.value.1, w.password, w.code, e.e.code);
    }
  }

  lemma {:induction false} BoundedAfter(s: State, e: Event)
    requires Invariant(s) && Possible(s, e)
    ensures Bounded(Next(s, e))
  {
    if e.Ordinary? && e.e.Redeeming? {
      BoundedAfterRedeeming(s, e);
    }
  }

  /** Lost stays lost, until a reset. */
  lemma {:induction false} LostAfter(s: State, e: Event, key: Term)
    requires Bounded(s) && LostTo(s, key) && Possible(s, e) && e.Ordinary?
    ensures LostTo(Next(s, e), key)
  {
    if e.e.Unlocking? {
      LostOpensNothing(s, key, e.e.typed);
    } else if e.e.Redeeming? {
      LostOpensNothing(s, key, e.e.code);
    }
  }

  lemma {:induction false} CrossingLoses(s: State, e: Event)
    requires Invariant(s) && !s.crossed && Possible(s, e) && Crosses(s, e)
    ensures LostTo(Next(s, e), e.e.redemption.userKey)
  {
  }

  lemma {:induction false} SealedAfter(s: State, e: Event)
    requires Invariant(s) && !s.crossed && Possible(s, e) && e.Ordinary? && !Crosses(s, e)
    ensures CR.Invariant(Next(s, e).world)
  {
    if CR.Possible(s.world, e.e) {
      CR.NextKeeps(s.world, e.e);
    }
  }

  lemma {:induction false} NextKeeps(s: State, e: Event)
    requires Invariant(s) && Possible(s, e)
    ensures Invariant(Next(s, e))
  {
    BoundedAfter(s, e);
    if e.Ordinary? {
      if s.crossed {
        var key :| LostTo(s, key);
        LostAfter(s, e, key);
      } else if Crosses(s, e) {
        CrossingLoses(s, e);
      } else {
        SealedAfter(s, e);
      }
    }
  }

  lemma {:induction false} EveryRunKeeps(events: seq<Event>, n: nat)
    requires Runs(events) && n <= |events|
    ensures Invariant(Run(events[..n]))
  {
    if n > 0 {
      EveryRunKeeps(events, n - 1);
      assert events[..n][..n - 1] == events[..n - 1];
      assert Possible(Run(events[..n - 1]), events[n - 1]);
      NextKeeps(Run(events[..n - 1]), events[n - 1]);
    }
  }

  // ----- when the account still opens

  ghost predicate NoResetAfter(events: seq<Event>, k: nat) {
    forall j | k < j < |events| :: events[j] != Resetting
  }

  ghost predicate CrossedAt(events: seq<Event>, k: nat)
    requires k < |events|
  {
    Crosses(Run(events[..k]), events[k]) && NoResetAfter(events, k)
  }

  /** A recovery from before the last reset was completed since that reset. */
  ghost predicate CompletedAcross(events: seq<Event>) {
    exists k: nat :: k < |events| && CrossedAt(events, k)
  }

  lemma {:induction false} CrossedStill(events: seq<Event>, k: nat)
    requires k < |events| - 1
    ensures CrossedAt(events, k) <==> CrossedAt(events[..|events| - 1], k) && events[|events| - 1] != Resetting
  {
    var before := events[..|events| - 1];
    assert before[..k] == events[..k];
    assert forall j | k < j < |before| :: before[j] == events[j];
  }

  lemma {:induction false} CrossedIff(events: seq<Event>)
    ensures Run(events).crossed <==> CompletedAcross(events)
  {
    if events != [] {
      var n := |events| - 1;
      var before := events[..n];
      CrossedIff(before);
      assert CrossedAt(events, n) <==> Crosses(Run(before), events[n]);
      forall k: nat | k < n
        ensures CrossedAt(events, k) <==> CrossedAt(before, k) && events[n] != Resetting
      {
        CrossedStill(events, k);
      }
      CrossedOnward(events);
    }
  }

  lemma {:induction false} CrossedOnward(events: seq<Event>)
    requires events != []
    requires var n := |events| - 1;
             forall k: nat | k < n :: CrossedAt(events, k) <==> CrossedAt(events[..n], k) && events[n] != Resetting
    ensures var n := |events| - 1;
            CompletedAcross(events)
            <==> CrossedAt(events, n) || (CompletedAcross(events[..n]) && events[n] != Resetting)
  {
  }

  /**
   In every run, resets included, the current password and the current code open the keys made at the last enrolment if
   and only if no recovery begun before the last reset was completed after it; otherwise nothing opens the account.
   */
  lemma {:induction false} EveryRunOpensIff(events: seq<Event>, typed: string)
    requires Runs(events) && Run(events).world.made.Some?
    ensures var w := Run(events).world;
            && Unlock(w.server.account, typed)
               == (if typed == w.password && !CompletedAcross(events) then w.made else None)
            && Recover(w.server.account, typed)
               == (if typed == w.code && !CompletedAcross(events) then w.made else None)
  {
    var s := Run(events);
    EveryRunKeeps(events, |events|);
    assert events[..|events|] == events;
    CrossedIff(events);
    if s.crossed {
      var key :| LostTo(s, key);
      LostOpensNothing(s, key, typed);
    } else {
      var w := s.world;
      SealedOpens(w.server.account, w.made.value.0, w.made.value.1, w.password, w.code, typed);
    }
  }

  /** A completion that takes effect leaves an account that opens exactly when it was begun after the last reset. */
  lemma {:induction false} CompletionOpensIff(events: seq<Event>, e: Event)
    requires Runs(events) && Possible(Run(events), e) && Completes(Run(events), e)
    ensures var w := Next(Run(events), e).world;
            && w.made.Some?
            && (Unlock(w.server.account, e.e.typed) == Recover(w.server.account, e.e.code) == w.made
                <==> e.e.redemption !in Run(events).stale)
  {
    var s := Run(events);
    EveryRunKeeps(events, |events|);
    assert events[..|events|] == events;
    if Crosses(s, e) {
      CrossingLoses(s, e);
      LostOpensNothing(Next(s, e), e.e.redemption.userKey, e.e.typed);
    } else {
      SealedAfter(s, e);
      CR.CurrentOpens(Next(s, e).world);
    }
  }

  /** Enrolment, redemption, reset, enrolment anew, and then the old recovery completed. */
  function Straddling(first: CR.Event, token: nat, anew: CR.Event, completion: CR.Event): seq<Event>
    requires first.Enrolling?
  {
    [Ordinary(first), Ordinary(CR.Redeeming(first.code, token, CR.Answered)), Resetting, Ordinary(anew),
        Ordinary(completion)]
  }

  lemma {:induction false} FirstEnrolled(first: CR.Event)
    requires first.Enrolling? && first.fate.Answered?
    ensures var s := Next(START, Ordinary(first));
            && Sealed(s.world.server.account, UserKey(first.serial), PrivateKey(first.serial), first.typed, first.code)
            && s.world.server.tokens == {} && s.world.redemptions == {}
            && s.stale == {} && s.issued == {} && s.serials == {first.serial}
  {
  }

  lemma {:induction false} ThenRedeemed(s: State, key: Term, secret: Term, typed: string, code: string, token: nat)
    requires Sealed(s.world.server.account, key, secret, typed, code)
    requires s.world.server.tokens == {} && s.world.redemptions == {}
    ensures var t := Next(s, Ordinary(CR.Redeeming(code, token, CR.Answered)));
            && t.world.server.tokens == {token} && t.world.redemptions == {CR.Redemption(key, token)}
            && t.stale == s.stale && t.serials == s.serials
  {
    SealedOpens(s.world.server.account, key, secret, typed, code, code);
  }

  lemma {:induction false} ThenEnrolledAnew(s: State, anew: CR.Event)
    requires s.world.server.account.Pending? && anew.Enrolling? && anew.fate.Answered?
    ensures var t := Next(s, Ordinary(anew));
            && t.world.server.account.Active? && t.world.server.tokens == s.world.server.tokens && t.stale == s.stale
            && t.world.made == Some((UserKey(anew.serial), PrivateKey(anew.serial)))
  {
  }

  lemma {:induction false} ThenCompleted(s: State, e: CR.Event)
    requires s.world.server.account.Active? && e.Completing? && e.fate.Answered?
    requires e.redemption in s.stale && e.redemption.token in s.world.server.tokens
    ensures Possible(s, Ordinary(e)) && Crosses(s, Ordinary(e)) && Next(s, Ordinary(e)).world.made == s.world.made
  {
  }

  /** The first `n` events are a run that ends in `s`. */
  ghost predicate Reaches(events: seq<Event>, n: nat, s: State)
    requires n <= |events|
  {
    Runs(events[..n]) && Run(events[..n]) == s
  }

  lemma {:induction false} RunsMore(events: seq<Event>, more: seq<Event>)
    requires |more| == |events| + 1 && more[..|events|] == events
    requires Runs(events) && Possible(Run(events), more[|events|])
    ensures Runs(more)
  {
    forall k | 0 <= k < |more|
      ensures Possible(Run(more[..k]), more[k])
    {
      if k < |events| {
        assert more[..k] == events[..k];
        assert Possible(Run(events[..k]), events[k]);
      }
    }
  }

  lemma {:induction false} ReachesMore(events: seq<Event>, n: nat, s: State, t: State)
    requires n < |events| && Reaches(events, n, s) && Possible(s, events[n]) && t == Next(s, events[n])
    ensures Reaches(events, n + 1, t)
  {
    assert events[..n + 1][..n] == events[..n];
    RunsMore(events[..n], events[..n + 1]);
  }

  lemma {:induction false} ReachesTwo(events: seq<Event>, n: nat, s: State, t: State, u: State)
    requires n + 1 < |events| && Reaches(events, n, s) && Possible(s, events[n]) && t == Next(s, events[n])
    requires Possible(t, events[n + 1]) && u == Next(t, events[n + 1])
    ensures Reaches(events, n + 2, u)
  {
    ReachesMore(events, n, s, t);
    ReachesMore(events, n + 1, t, u);
  }

  lemma {:induction false} CrossedLast(events: seq<Event>, n: nat, s: State, typed: string)
    requires |events| == n + 1 && Reaches(events, n, s) && Possible(s, events[n]) && Crosses(s, events[n])
    ensures Runs(events) && Run(events) == Next(s, events[n])
    ensures Unlock(Run(events).world.server.account, typed) == Recover(Run(events).world.server.account, typed) == None
  {
    RunsMore(events[..n], events);
    EveryRunKeeps(events, n);
    CrossingLoses(s, events[n]);
    LostOpensNothing(Next(s, events[n]), events[n].e.redemption.userKey, typed);
  }

  lemma {:induction false} ReachesEnrolled(events: seq<Event>, first: CR.Event) returns (s: State)
    requires |events| > 0 && first.Enrolling? && first.fate.Answered? && events[0] == Ordinary(first)
    ensures Reaches(events, 1, s)
    ensures Sealed(s.world.server.account, UserKey(first.serial), PrivateKey(first.serial), first.typed, first.code)
    ensures s.world.server.tokens == {} && s.world.redemptions == {}
    ensures s.stale == {} && s.issued == {} && s.serials == {first.serial}
  {
    s := Next(START, events[0]);
    FirstEnrolled(first);
    ReachesMore(events, 0, START, s);
  }

  /** Enrolled, and a redemption in hand. */
  lemma {:induction false} ReachesRedeemed(events: seq<Event>, first: CR.Event, token: nat) returns (s: State)
    requires |events| > 1 && first.Enrolling? && first.fate.Answered? && events[0] == Ordinary(first)
    requires events[1] == Ordinary(CR.Redeeming(first.code, token, CR.Answered))
    ensures Reaches(events, 2, s)
    ensures s.world.server.tokens == {token} && s.world.redemptions == {CR.Redemption(UserKey(first.serial), token)}
    ensures s.stale == {} && s.serials == {first.serial}
  {
    var was := ReachesEnrolled(events, first);
    s := Next(was, events[1]);
    ThenRedeemed(was, UserKey(first.serial), PrivateKey(first.serial), first.typed, first.code, token);
    ReachesMore(events, 1, was, s);
  }

  /** Reset and enrolled anew: the old token is live against the new account. */
  lemma {:induction false} ReachesAnew(events: seq<Event>, was: State, anew: CR.Event) returns (s: State)
    requires |events| > 3 && anew.Enrolling? && anew.fate.Answered? && anew.serial !in was.serials
    requires events[2] == Resetting && events[3] == Ordinary(anew) && Reaches(events, 2, was)
    ensures Reaches(events, 4, s) && s.world.server.account.Active?
    ensures s.world.server.tokens == was.world.server.tokens && s.stale == was.stale + was.world.redemptions
    ensures s.world.made == Some((UserKey(anew.serial), PrivateKey(anew.serial)))
  {
    var s3 := Next(was, events[2]);
    s := Next(s3, events[3]);
    ThenEnrolledAnew(s3, anew);
    ReachesTwo(events, 2, was, s3, s);
  }

  /** Every request of such a run is answered, and the account that results opens with nothing at all. */
  lemma {:induction false} StraddlingDestroys(
    first: CR.Event, token: nat, anew: CR.Event, completion: CR.Event, typed: string)
    requires first.Enrolling? && first.fate.Answered? && anew.Enrolling? && anew.fate.Answered?
    requires first.serial != anew.serial && completion.Completing? && completion.fate.Answered?
    requires completion.redemption == CR.Redemption(UserKey(first.serial), token)
    ensures var events := Straddling(first, token, anew, completion);
            && Runs(events) && Run(events).world.made == Some((UserKey(anew.serial), PrivateKey(anew.serial)))
            && Unlock(Run(events).world.server.account, typed) == None
            && Recover(Run(events).world.server.account, typed) == None
  {
    var events := Straddling(first, token, anew, completion);
    var s2 := ReachesRedeemed(events, first, token);
    var s4 := ReachesAnew(events, s2, anew);
    ThenCompleted(s4, completion);
    CrossedLast(events, 4, s4, typed);
  }
}
