/**
 What anyone without the password can make of what the server is sent and keeps (README.md, "The server never holds a
 key that opens anything"), over every run: terms are taken apart and put together as the cryptography allows.
 */
module Secrecy {
  import opened Options
  import opened Credentials
  import opened CredentialRuns

  /** What somebody brings along: strings to try, and keys made up by themselves. */
  datatype Own = Own(strings: set<string>, serials: set<nat>)

  /** In so many steps, from the terms seen: keys are derived from strings, halves and hashes taken, blobs opened. */
  ghost predicate Derives(seen: set<Term>, own: Own, t: Term, steps: nat)
    decreases steps
  {
    || t in seen
    || (steps > 0
        && (match t
            case UserKey(n) => n in own.serials
            case PrivateKey(n) => n in own.serials
            case Derived(secret, _, _) => secret in own.strings
            case Wrapped(inner, under) =>
              Derives(seen, own, inner, steps - 1) && Derives(seen, own, under, steps - 1)
            case _ => Derives(seen, own, t.of, steps - 1)))
    || (steps > 0
        && exists key :: Derives(seen, own, Wrapped(t, key), steps - 1) && Derives(seen, own, key, steps - 1))
  }

  ghost predicate CanDerive(seen: set<Term>, own: Own, t: Term) {
    exists steps: nat :: Derives(seen, own, t, steps)
  }

  lemma {:induction false} Opens(seen: set<Term>, own: Own, t: Term, key: Term, steps: nat)
    requires Wrapped(t, key) in seen && Derives(seen, own, key, steps)
    ensures Derives(seen, own, t, steps + 1)
  {
    assert Derives(seen, own, Wrapped(t, key), steps);
  }

  // ----- what is kept from whom

  /** Keys derived from these strings, the keys of these serials, and the auth halves unless they have been shown. */
  datatype Guard = Guard(strings: set<string>, serials: set<nat>, shown: bool)

  ghost predicate Safe(g: Guard, t: Term) {
    match t
    case UserKey(n) => n !in g.serials
    case PrivateKey(n) => n !in g.serials
    case Derived(secret, _, _) => secret !in g.strings
    case WrapHalf(of) => Safe(g, of)
    case RecoveryWrapHalf(of) => Safe(g, of)
    case AuthHalf(of) => g.shown || Safe(g, of)
    case RecoveryAuthHalf(of) => g.shown || Safe(g, of)
    case Wrapped(inner, under) => Safe(g, under) ==> Safe(g, inner)
    case Hashed(_) => true
  }

  /** Nothing that is kept from them comes of what is safe to see. */
  lemma {:induction false} StaysSafe(g: Guard, seen: set<Term>, own: Own, t: Term, steps: nat)
    requires forall s | s in seen :: Safe(g, s)
    requires own.strings !! g.strings && own.serials !! g.serials
    requires Derives(seen, own, t, steps)
    ensures Safe(g, t)
    decreases steps, t
  {
    if t !in seen {
      if key :| Derives(seen, own, Wrapped(t, key), steps - 1) && Derives(seen, own, key, steps - 1) {
        StaysSafe(g, seen, own, Wrapped(t, key), steps - 1);
        StaysSafe(g, seen, own, key, steps - 1);
      } else {
        match t
        case UserKey(_) =>
        case PrivateKey(_) =>
        case Derived(_, _, _) =>
        case Wrapped(inner, under) => StaysSafe(g, seen, own, inner, steps - 1);
        case _ => StaysSafe(g, seen, own, t.of, steps - 1);
      }
    }
  }

  // ----- what is put on the wire, and what is stored

  function Posted(p: PasswordCredential): set<Term> {
    {p.authHash, p.protectedUserKey}
  }

  function PostedCode(r: RecoveryCredential): set<Term> {
    {r.authHash, r.protectedUserKey}
  }

  /** The row as it is stored. */
  function Stored(a: Account): set<Term> {
    match a
    case Pending => {}
    case Active(password, recovery, encryptedPrivateKey) =>
      Posted(password) + PostedCode(recovery) + {encryptedPrivateKey}
  }

  function Sent(w: World, e: Event): set<Term> {
    match e
    case Enrolling(typed, salt, code, recoverySalt, serial, _, _) =>
      Posted(MakePassword(typed, salt, UserKey(serial))) + PostedCode(MakeRecovery(code, recoverySalt, UserKey(serial)))
      + {Wrapped(PrivateKey(serial), UserKey(serial))}
    case Unlocking(typed) => {CurrentAuth(w.server, typed)}
    case ChangingPassword(current, typed, salt, session, _) =>
      {CurrentAuth(w.server, current)} + Posted(MakePassword(typed, salt, session))
    case NewCode(current, code, recoverySalt, session, _) =>
      {CurrentAuth(w.server, current)} + PostedCode(MakeRecovery(code, recoverySalt, session))
    case Redeeming(code, _, _) => {CodeAuth(w.server, code)}
    case Completing(redemption, typed, salt, code, recoverySalt, _) =>
      Posted(MakePassword(typed, salt, redemption.userKey))
      + PostedCode(MakeRecovery(code, recoverySalt, redemption.userKey))
    case _ => {}
  }

  /** All that was ever sent, and all that was ever stored. */
  ghost function Seen(events: seq<Event>): set<Term> {
    if events == [] then {}
    else
      var n := |events| - 1;
      Seen(events[..n]) + Sent(Run(events[..n]), events[n]) + Stored(Run(events).server.account)
  }

  /** The passwords and codes under which a request wraps the key. */
  function WrapsIn(e: Event, key: Term): set<string> {
    match e
    case Enrolling(typed, _, code, _, serial, _, _) => if UserKey(serial) == key then {typed, code} else {}
    case ChangingPassword(_, typed, _, session, _) => if session == key then {typed} else {}
    case NewCode(_, code, _, session, _) => if session == key then {code} else {}
    case Completing(redemption, typed, _, code, _, _) => if redemption.userKey == key then {typed, code} else {}
    case _ => {}
  }

  function Wraps(events: seq<Event>, key: Term): set<string> {
    if events == [] then {} else Wraps(events[..|events| - 1], key) + WrapsIn(events[|events| - 1], key)
  }

  // ----- every run

  /** The keys in use are those of an enrolment, whose private key was sent under its user key. */
  ghost predicate FromEnrolment(events: seq<Event>) {
    var made := Run(events).made;
    made.Some? ==>
      && made.value.0.UserKey? && made.value.1 == PrivateKey(made.value.0.serial)
      && Wrapped(made.value.1, made.value.0) in Seen(events)
  }

  lemma {:induction false} EveryKeyFromEnrolment(events: seq<Event>)
    requires Runs(events)
    ensures FromEnrolment(events)
  {
    if events != [] {
      var n := |events| - 1;
      RunsPrefix(events);
      EveryKeyFromEnrolment(events[..n]);
      EveryRunSealed(events[..n]);
      NextKeeps(Run(events[..n]), events[n]);
    }
  }

  /** What one event sends of a key, and what it leaves stored. */
  lemma {:induction false} SentSafe(g: Guard, w: World, e: Event)
    requires Invariant(w) && Possible(w, e) && (w.made.Some? ==> w.made.value.0.UserKey?)
    requires g.shown && forall n | n in g.serials :: WrapsIn(e, UserKey(n)) <= g.strings
    ensures forall t | t in Sent(w, e) :: Safe(g, t)
  {
    match e
    case Enrolling(typed, salt, code, recoverySalt, serial, _, _) =>
      assert serial in g.serials ==> WrapsIn(e, UserKey(serial)) <= g.strings;
      BlobSafe(g, serial, typed, salt);
      BlobSafe(g, serial, code, recoverySalt);
    case ChangingPassword(_, typed, salt, session, _) =>
      assert session.serial in g.serials ==> WrapsIn(e, UserKey(session.serial)) <= g.strings;
      BlobSafe(g, session.serial, typed, salt);
    case NewCode(_, code, recoverySalt, session, _) =>
      assert session.serial in g.serials ==> WrapsIn(e, UserKey(session.serial)) <= g.strings;
      BlobSafe(g, session.serial, code, recoverySalt);
    case Completing(redemption, typed, salt, code, recoverySalt, _) =>
      var serial := redemption.userKey.serial;
      assert serial in g.serials ==> WrapsIn(e, UserKey(serial)) <= g.strings;
      BlobSafe(g, serial, typed, salt);
      BlobSafe(g, serial, code, recoverySalt);
    case _ =>
  }

  lemma {:induction false} BlobSafe(g: Guard, n: nat, s: string, salt: nat)
    requires n in g.serials ==> s in g.strings
    ensures Safe(g, MakePassword(s, salt, UserKey(n)).protectedUserKey)
    ensures Safe(g, MakeRecovery(s, salt, UserKey(n)).protectedUserKey)
  {
    var stretched := Derived(s, salt, DEFAULT_PARAMS);
    assert Safe(g, stretched) <==> s !in g.strings;
    assert Safe(g, WrapHalf(stretched)) <==> Safe(g, stretched);
    assert Safe(g, RecoveryWrapHalf(stretched)) <==> Safe(g, stretched);
  }

  /** What the server stores is what it was sent, or a hash of it. */
  lemma {:induction false} StoredWasSent(w: World, e: Event, t: Term)
    requires t in Stored(Next(w, e).server.account)
    ensures t in Stored(w.server.account) || t in Sent(w, e) || t.Hashed?
  {
  }

  lemma {:induction false} SeenSafe(g: Guard, events: seq<Event>)
    requires Runs(events) && g.shown && forall n | n in g.serials :: Wraps(events, UserKey(n)) <= g.strings
    ensures forall t | t in Seen(events) :: Safe(g, t)
  {
    if events != [] {
      var n := |events| - 1;
      var w := Run(events[..n]);
      RunsPrefix(events);
      EveryRunSealed(events[..n]);
      EveryKeyFromEnrolment(events[..n]);
      SeenSafe(g, events[..n]);
      SentSafe(g, w, events[n]);
      StoredSeen(events[..n]);
      forall t | t in Seen(events)
        ensures Safe(g, t)
      {
        if t in Stored(Run(events).server.account) {
          StoredWasSent(w, events[n], t);
        }
      }
    }
  }

  lemma {:induction false} StoredSeen(events: seq<Event>)
    ensures Stored(Run(events).server.account) <= Seen(events)
  {
  }

  /** A key wrapped under a string is out there, wrapped under that string. */
  lemma {:induction false} WrappedSeen(events: seq<Event>, key: Term, s: string) returns (salt: nat, coded: bool)
    requires s in Wraps(events, key)
    ensures var stretched := Derived(s, salt, DEFAULT_PARAMS);
            Wrapped(key, if coded then RecoveryWrapHalf(stretched) else WrapHalf(stretched)) in Seen(events)
  {
    var n := |events| - 1;
    if s in Wraps(events[..n], key) {
      salt, coded := WrappedSeen(events[..n], key, s);
    } else {
      var w, e := Run(events[..n]), events[n];
      match e
      case Enrolling(typed, passwordSalt, _, recoverySalt, _, _, _) =>
        coded := s != typed;
        salt := if coded then recoverySalt else passwordSalt;
      case ChangingPassword(_, _, passwordSalt, _, _) => salt, coded := passwordSalt, false;
      case NewCode(_, _, recoverySalt, _, _) => salt, coded := recoverySalt, true;
      case Completing(_, typed, passwordSalt, _, recoverySalt, _) =>
        coded := s != typed;
        salt := if coded then recoverySalt else passwordSalt;
    }
  }

  /** A key that was ever wrapped came with its private key. */
  lemma {:induction false} PrivateSeen(events: seq<Event>, n: nat)
    requires Runs(events) && Wraps(events, UserKey(n)) != {}
    ensures Wrapped(PrivateKey(n), UserKey(n)) in Seen(events)
  {
    var last := |events| - 1;
    RunsPrefix(events);
    if Wraps(events[..last], UserKey(n)) != {} {
      PrivateSeen(events[..last], n);
    } else {
      EveryRunSealed(events[..last]);
      EveryKeyFromEnrolment(events[..last]);
    }
  }

  /**
   From all that was ever sent and stored, whoever did not make the key can come by it, or by the private key under it,
   if and only if they try a password or a code it was wrapped under.
   */
  lemma {:induction false} LearnsKeyIff(events: seq<Event>, own: Own, n: nat)
    requires Runs(events) && n !in own.serials
    ensures CanDerive(Seen(events), own, UserKey(n)) <==> own.strings * Wraps(events, UserKey(n)) != {}
    ensures CanDerive(Seen(events), own, PrivateKey(n)) <==> own.strings * Wraps(events, UserKey(n)) != {}
  {
    var seen, g := Seen(events), Guard(Wraps(events, UserKey(n)), {n}, true);
    if s :| s in own.strings && s in Wraps(events, UserKey(n)) {
      var salt, coded := WrappedSeen(events, UserKey(n), s);
      var stretched := Derived(s, salt, DEFAULT_PARAMS);
      assert Derives(seen, own, stretched, 1);
      Opens(seen, own, UserKey(n), if coded then RecoveryWrapHalf(stretched) else WrapHalf(stretched), 2);
      PrivateSeen(events, n);
      Opens(seen, own, PrivateKey(n), UserKey(n), 3);
      assert s in own.strings * Wraps(events, UserKey(n));
    } else {
      assert own.strings * Wraps(events, UserKey(n)) == {};
      SeenSafe(g, events);
      forall steps: nat, t | t in {UserKey(n), PrivateKey(n)} && Derives(seen, own, t, steps)
        ensures false
      {
        StaysSafe(g, seen, own, t, steps);
      }
    }
  }

  /** Nor does anything sent or stored give the key stretched from a password or a code, short of trying it. */
  lemma {:induction false} LearnsStretchedIff(events: seq<Event>, own: Own, s: string, salt: nat, params: nat)
    requires Runs(events)
    ensures CanDerive(Seen(events), own, Derived(s, salt, params)) <==> s in own.strings
  {
    var seen, g, t := Seen(events), Guard({s}, {}, true), Derived(s, salt, params);
    if s in own.strings {
      assert Derives(seen, own, t, 1);
    } else {
      SeenSafe(g, events);
      forall steps: nat | Derives(seen, own, t, steps)
        ensures false
      {
        StaysSafe(g, seen, own, t, steps);
      }
    }
  }

  // ----- a stolen row

  lemma {:induction false} RowSafe(g: Guard, a: Account, n: nat, password: string, code: string)
    requires Sealed(a, UserKey(n), PrivateKey(n), password, code)
    requires n in g.serials ==> {password, code} <= g.strings
    ensures forall t | t in Stored(a) :: Safe(g, t)
  {
    BlobSafe(g, n, password, a.password.salt);
    BlobSafe(g, n, code, a.recovery.salt);
  }

  /** Such a row gives the keys, and the halves that log in or redeem, only to who tries its strings. */
  lemma {:induction false} RowGivesIff(a: Account, n: nat, password: string, code: string, own: Own)
    requires Sealed(a, UserKey(n), PrivateKey(n), password, code)
    ensures n !in own.serials ==>
      && (CanDerive(Stored(a), own, UserKey(n)) <==> password in own.strings || code in own.strings)
      && (CanDerive(Stored(a), own, PrivateKey(n)) <==> password in own.strings || code in own.strings)
    ensures CanDerive(Stored(a), own, AuthHalf(Derived(password, a.password.salt, a.password.params)))
            <==> password in own.strings
    ensures CanDerive(Stored(a), own, RecoveryAuthHalf(Derived(code, a.recovery.salt, a.recovery.params)))
            <==> code in own.strings
  {
    if n !in own.serials {
      RowOpensIff(a, n, password, code, own);
    }
    HalfIff(a, n, password, code, own, password, AuthHalf(Derived(password, a.password.salt, a.password.params)));
    HalfIff(a, n, password, code, own, code, RecoveryAuthHalf(Derived(code, a.recovery.salt, a.recovery.params)));
  }

  lemma {:induction false} RowOpensIff(a: Account, n: nat, password: string, code: string, own: Own)
    requires Sealed(a, UserKey(n), PrivateKey(n), password, code) && n !in own.serials
    ensures CanDerive(Stored(a), own, UserKey(n)) <==> password in own.strings || code in own.strings
    ensures CanDerive(Stored(a), own, PrivateKey(n)) <==> password in own.strings || code in own.strings
  {
    var row := Stored(a);
    if password in own.strings || code in own.strings {
      var half := if password in own.strings then WrapHalf(Derived(password, a.password.salt, DEFAULT_PARAMS))
      else RecoveryWrapHalf(Derived(code, a.recovery.salt, DEFAULT_PARAMS));
      assert Derives(row, own, half.of, 1) && Derives(row, own, half, 2);
      Opens(row, own, UserKey(n), half, 2);
      Opens(row, own, PrivateKey(n), UserKey(n), 3);
    } else {
      RowSafe(Guard({password, code}, {n}, false), a, n, password, code);
      forall steps: nat, t | t in {UserKey(n), PrivateKey(n)} && Derives(row, own, t, steps)
        ensures false
      {
        StaysSafe(Guard({password, code}, {n}, false), row, own, t, steps);
      }
    }
  }

  lemma {:induction false} HalfIff(
    a: Account, n: nat, password: string, code: string, own: Own, s: string, half: Term)
    requires Sealed(a, UserKey(n), PrivateKey(n), password, code)
    requires (half.AuthHalf? || half.RecoveryAuthHalf?) && half.of.Derived? && half.of.secret == s
    ensures CanDerive(Stored(a), own, half) <==> s in own.strings
  {
    if s in own.strings {
      assert Derives(Stored(a), own, half.of, 1) && Derives(Stored(a), own, half, 2);
    } else {
      RowSafe(Guard({s}, {}, false), a, n, password, code);
      forall steps: nat | Derives(Stored(a), own, half, steps)
        ensures false
      {
        StaysSafe(Guard({s}, {}, false), Stored(a), own, half, steps);
      }
    }
  }

  /**
   In every run the stored row yields neither the keys nor a login, short of trying the current password or code; and it
   yields no recovery, short of trying the current code.
   */
  lemma {:induction false} StolenRowYieldsIff(events: seq<Event>, own: Own, token: nat)
    requires Runs(events) && Run(events).made.Some?
    ensures var w := Run(events);
            var row := Stored(w.server.account);
            && w.made.value.0.UserKey?
            && (w.made.value.0.serial !in own.serials ==>
                  (CanDerive(row, own, w.made.value.0) <==> w.password in own.strings || w.code in own.strings)
                  && (CanDerive(row, own, w.made.value.1) <==> w.password in own.strings || w.code in own.strings))
            && ((exists t :: CanDerive(row, own, t) && Proves(w.server, t)) <==> w.password in own.strings)
            && ((exists t :: CanDerive(row, own, t) && Redeem(w.server, t, token).Some?) <==> w.code in own.strings)
  {
    var w := Run(events);
    EveryRunSealed(events);
    EveryKeyFromEnrolment(events);
    RowGivesIff(w.server.account, w.made.value.0.serial, w.password, w.code, own);
  }
}
