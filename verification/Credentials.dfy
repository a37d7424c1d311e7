/**
 Key material as symbolic terms (packages/crypto/src/keys.ts, packages/crypto/src/recovery.ts): derivations are
 injective, wrapping opens only under the key it was made with, and a server-side hash only matches what was hashed.
 Then the account row, what the server does to it, and what the client sends.
 */
module Credentials {
  import opened Options

  datatype Term =
    | UserKey(serial: nat)
    | PrivateKey(serial: nat)
    | Derived(secret: string, salt: nat, params: nat)
    | WrapHalf(of: Term)
    | AuthHalf(of: Term)
    | RecoveryWrapHalf(of: Term)
    | RecoveryAuthHalf(of: Term)
    | Wrapped(inner: Term, under: Term)
    | Hashed(of: Term)

  /** The pinned KDF parameters. */
  const DEFAULT_PARAMS: nat := 0

  function Unwrap(blob: Term, key: Term): Option<Term> {
    if blob.Wrapped? && blob.under == key then Some(blob.inner) else None
  }

  // ----- the account row

  datatype PasswordCredential = PasswordCredential(salt: nat, params: nat, authHash: Term, protectedUserKey: Term)

  datatype RecoveryCredential = RecoveryCredential(salt: nat, params: nat, authHash: Term, protectedUserKey: Term)

  datatype Account =
    | Pending
    | Active(password: PasswordCredential, recovery: RecoveryCredential, encryptedPrivateKey: Term)

  // ----- what the client makes

  function MakePassword(password: string, salt: nat, userKey: Term): PasswordCredential {
    var master := Derived(password, salt, DEFAULT_PARAMS);
    PasswordCredential(salt, DEFAULT_PARAMS, AuthHalf(master), Wrapped(userKey, WrapHalf(master)))
  }

  function MakeRecovery(code: string, salt: nat, userKey: Term): RecoveryCredential {
    var key := Derived(code, salt, DEFAULT_PARAMS);
    RecoveryCredential(salt, DEFAULT_PARAMS, RecoveryAuthHalf(key), Wrapped(userKey, RecoveryWrapHalf(key)))
  }

  // ----- what the server does

  /** The auth halves are hashed again before they are stored. */
  function StorePassword(c: PasswordCredential): PasswordCredential {
    c.(authHash := Hashed(c.authHash))
  }

  function StoreRecovery(c: RecoveryCredential): RecoveryCredential {
    c.(authHash := Hashed(c.authHash))
  }

  /** A server holding one account, and the recovery tokens that are live for it. */
  datatype Server = Server(account: Account, tokens: set<nat>)

  function Enrol(s: Server, p: PasswordCredential, r: RecoveryCredential, encryptedPrivateKey: Term): Option<Server> {
    if s.account.Pending? && p.params == DEFAULT_PARAMS && r.params == DEFAULT_PARAMS
    then Some(s.(account := Active(StorePassword(p), StoreRecovery(r), encryptedPrivateKey)))
    else None
  }

  predicate Proves(s: Server, authHash: Term) {
    s.account.Active? && s.account.password.authHash == Hashed(authHash)
  }

  function RotatePassword(s: Server, current: Term, p: PasswordCredential): Option<Server> {
    if Proves(s, current) && p.params == DEFAULT_PARAMS
    then Some(s.(account := s.account.(password := StorePassword(p))))
    else None
  }

  function RotateRecovery(s: Server, current: Term, r: RecoveryCredential): Option<Server> {
    if Proves(s, current) && r.params == DEFAULT_PARAMS
    then Some(s.(account := s.account.(recovery := StoreRecovery(r))))
    else None
  }

  /** A redeemed code mints a token. */
  function Redeem(s: Server, authHash: Term, token: nat): Option<Server> {
    if s.account.Active? && s.account.recovery.authHash == Hashed(authHash)
    then Some(s.(tokens := s.tokens + {token}))
    else None
  }

  /** A live token replaces both credentials at once, and every token of the account is spent with it. */
  function Complete(s: Server, token: nat, p: PasswordCredential, r: RecoveryCredential): Option<Server> {
    if token in s.tokens && s.account.Active? && p.params == DEFAULT_PARAMS && r.params == DEFAULT_PARAMS
    then Some(Server(s.account.(password := StorePassword(p), recovery := StoreRecovery(r)), {}))
    else None
  }

  predicate Pinned(a: Account) {
    a.Active? ==> a.password.params == DEFAULT_PARAMS && a.recovery.params == DEFAULT_PARAMS
  }

  /** No request stores other parameters, whatever it asks for. */
  lemma {:induction false} StaysPinned(
    s: Server, auth: Term, token: nat, p: PasswordCredential, r: RecoveryCredential, blob: Term)
    requires Pinned(s.account)
    ensures forall done | Some(done) in {Enrol(s, p, r, blob), RotatePassword(s, auth, p), RotateRecovery(s, auth, r),
                                         Redeem(s, auth, token), Complete(s, token, p, r)} :: Pinned(done.account)
  {
  }

  // ----- opening the account

  /** The keys a password opens: prelogin's salt and parameters, login by the auth half, then unwrapping. */
  function Unlock(a: Account, password: string): Option<(Term, Term)> {
    if a.Pending? then None
    else
      var master := Derived(password, a.password.salt, a.password.params);
      if a.password.authHash != Hashed(AuthHalf(master)) then None
      else
        match Unwrap(a.password.protectedUserKey, WrapHalf(master))
        case None => None
        case Some(userKey) =>
          match Unwrap(a.encryptedPrivateKey, userKey)
          case None => None
          case Some(privateKey) => Some((userKey, privateKey))
  }

  /** The keys a recovery code opens. */
  function Recover(a: Account, code: string): Option<(Term, Term)> {
    if a.Pending? then None
    else
      var key := Derived(code, a.recovery.salt, a.recovery.params);
      if a.recovery.authHash != Hashed(RecoveryAuthHalf(key)) then None
      else
        match Unwrap(a.recovery.protectedUserKey, RecoveryWrapHalf(key))
        case None => None
        case Some(userKey) =>
          match Unwrap(a.encryptedPrivateKey, userKey)
          case None => None
          case Some(privateKey) => Some((userKey, privateKey))
  }

  /** A stored account made by honest clients: one user key under a password and under a code. */
  ghost predicate Sealed(a: Account, userKey: Term, privateKey: Term, password: string, code: string) {
    && a.Active?
    && a.password == StorePassword(MakePassword(password, a.password.salt, userKey))
    && a.recovery == StoreRecovery(MakeRecovery(code, a.recovery.salt, userKey))
    && a.encryptedPrivateKey == Wrapped(privateKey, userKey)
  }

  /** Such an account opens with exactly that password and exactly that code, and both give the same keys. */
  lemma {:induction false} SealedOpens(
    a: Account, userKey: Term, privateKey: Term, password: string, code: string, s: string)
    requires Sealed(a, userKey, privateKey, password, code)
    ensures Unlock(a, s) == if s == password then Some((userKey, privateKey)) else None
    ensures Recover(a, s) == if s == code then Some((userKey, privateKey)) else None
  {
  }
}
