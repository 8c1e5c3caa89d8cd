/**
 One account row and the transitions the account service applies to it:
 a login attempt (with failed-login counting and lockout), email
 verification by token, administrative unlock, password reset and
 profile update.

 Where the service's observed behaviour leaves a choice open, the choice is
 a field of `Policy`, fixed when the service is configured, and every
 property below holds for every policy.
 */
module Accounts {
  import opened Credentials

  datatype Option<T> = None | Some(value: T)

  type Id = nat

  type Threshold = n: nat | n > 0 witness 1

  /**
   Configuration of the service.
   - maxLoginAttempts: consecutive wrong passwords that lock an account.
   - caseInsensitiveEmail: whether emails are compared after ASCII lower-casing.
   - countUnverifiedFailures: whether login attempts on an unverified account
     reach the password check (and so the counter); they never succeed.
   - resetClearsLock: whether a password reset also unlocks the account.
   */
  datatype Policy = Policy(
    maxLoginAttempts: Threshold,
    caseInsensitiveEmail: bool,
    countUnverifiedFailures: bool,
    resetClearsLock: bool)

  datatype Account = Account(
    id: Id,
    email: string,
    nickname: string,
    digest: Digest,
    profile: map<string, string>,
    emailVerified: bool,
    verificationToken: Option<string>,
    failedLoginAttempts: nat,
    isLocked: bool)

  /** Why an operation that returns an account produced none. */
  datatype Failure = NotFound | Invalid | Conflict

  datatype Outcome = Ok(account: Account) | Fail(failure: Failure)
  {
    /** The service's own return value: the account, or None on any failure. */
    function ToOption(): Option<Account>
    {
      if Ok? then Some(account) else None
    }
  }

  function LowerChar(c: char): char
  {
    if 'A' <= c <= 'Z' then (c as int - 'A' as int + 'a' as int) as char else c
  }

  /** ASCII lower-casing. */
  function Lower(s: string): string
  {
    if s == [] then [] else [LowerChar(s[0])] + Lower(s[1..])
  }

  /** The form in which emails are compared for lookup and uniqueness. */
  function EmailKey(p: Policy, email: string): string
  {
    if p.caseInsensitiveEmail then Lower(email) else email
  }

  /**
   What lockout guarantees of every stored account: the counter never passes
   the threshold, and an account is unlocked only below it.
   */
  predicate WithinLockout(a: Account, p: Policy)
  {
    a.failedLoginAttempts <= p.maxLoginAttempts
    && (!a.isLocked ==> a.failedLoginAttempts < p.maxLoginAttempts)
  }

  /** The row a successful creation stores. */
  function NewAccount(id: Id, email: string, nickname: string, password: string,
                      profile: map<string, string>, token: string): (a: Account)
    ensures a.id == id && a.email == email && a.nickname == nickname
    ensures Verify(password, a.digest)
    ensures !a.emailVerified && a.verificationToken == Some(token)
    ensures a.failedLoginAttempts == 0 && !a.isLocked
  {
    Account(id, email, nickname, Hash(password), profile, false, Some(token), 0, false)
  }

  /** The result of one login attempt on one account: the new row and whether access is granted. */
  datatype Attempt = Attempt(account: Account, granted: bool)

  /** The counter and lock fields are the only ones a login attempt may change. */
  predicate SameButLockout(a: Account, b: Account)
  {
    b == a.(failedLoginAttempts := b.failedLoginAttempts, isLocked := b.isLocked)
  }

  /**
   A login attempt with `password` on account `a`: a locked account is
   refused untouched; an unverified one is refused, untouched unless the
   policy counts its attempts; otherwise a wrong password increments the
   counter and locks the account on reaching the threshold, and a right one
   resets the counter.
   */
  function AttemptLogin(a: Account, password: string, p: Policy): (r: Attempt)
    ensures r.granted <==> !a.isLocked && a.emailVerified && Verify(password, a.digest)
    ensures SameButLockout(a, r.account)
    ensures r.granted ==> r.account.failedLoginAttempts == 0 && !r.account.isLocked
    ensures a.isLocked ==> r.account == a
    ensures !a.emailVerified && !p.countUnverifiedFailures ==> r.account == a
    ensures !a.isLocked && !Verify(password, a.digest) && (a.emailVerified || p.countUnverifiedFailures) ==>
      r.account.failedLoginAttempts == a.failedLoginAttempts + 1
      && (r.account.isLocked <==> a.failedLoginAttempts + 1 >= p.maxLoginAttempts)
    ensures WithinLockout(a, p) ==> WithinLockout(r.account, p)
  {
    if a.isLocked then
      Attempt(a, false)
    else if !a.emailVerified && !p.countUnverifiedFailures then
      Attempt(a, false)
    else if Verify(password, a.digest) then
      Attempt(a.(failedLoginAttempts := 0), a.emailVerified)
    else
      var n := a.failedLoginAttempts + 1;
      Attempt(a.(failedLoginAttempts := n, isLocked := n >= p.maxLoginAttempts), false)
  }

  /** The account after `n` login attempts with the same password. */
  function LoginRepeatedly(a: Account, password: string, p: Policy, n: nat): Account
    decreases n
  {
    if n == 0 then a else AttemptLogin(LoginRepeatedly(a, password, p, n - 1), password, p).account
  }

  function Min(x: nat, y: nat): nat
  {
    if x <= y then x else y
  }

  /**
   Consecutive wrong passwords on an unlocked account that reaches the
   password check count up one by one and lock it exactly when the
   threshold is reached; after that the counter stays at the threshold.
   */
  lemma {:induction false} WrongPasswordsLock(a: Account, wrong: string, p: Policy, n: nat)
    requires !a.isLocked && WithinLockout(a, p)
    requires a.emailVerified || p.countUnverifiedFailures
    requires !Verify(wrong, a.digest)
    ensures var b := LoginRepeatedly(a, wrong, p, n);
      && SameButLockout(a, b)
      && b.failedLoginAttempts == Min(a.failedLoginAttempts + n, p.maxLoginAttempts)
      && (b.isLocked <==> a.failedLoginAttempts + n >= p.maxLoginAttempts)
    decreases n
  {
    if n > 0 {
      WrongPasswordsLock(a, wrong, p, n - 1);
    }
  }

  /** Attempts on a locked account change nothing. */
  lemma {:induction false} LockedStaysLocked(a: Account, password: string, p: Policy, n: nat)
    requires a.isLocked
    ensures LoginRepeatedly(a, password, p, n) == a
    decreases n
  {
    if n > 0 {
      LockedStaysLocked(a, password, p, n - 1);
    }
  }

  /** Administrative unlock: the lock is lifted and the counter starts again. */
  function Unlocked(a: Account): (b: Account)
    ensures !b.isLocked && b.failedLoginAttempts == 0
    ensures SameButLockout(a, b)
  {
    a.(isLocked := false, failedLoginAttempts := 0)
  }

  /**
   Verification with `token`: succeeds exactly on a not yet verified account
   holding that token as its pending one, which it then consumes. An account
   that is already verified is refused whatever the token.
   */
  function Verified(a: Account, token: string): (r: Option<Account>)
    ensures r.Some? <==> !a.emailVerified && a.verificationToken == Some(token)
    ensures r.Some? ==> r.value.emailVerified && r.value.verificationToken.None?
    ensures r.Some? ==> r.value.(emailVerified := a.emailVerified, verificationToken := a.verificationToken) == a
  {
    if !a.emailVerified && a.verificationToken == Some(token) then
      Some(a.(emailVerified := true, verificationToken := None))
    else
      None
  }

  /** Password reset: the new password's digest replaces the old; the lock goes only if the policy says so. */
  function PasswordReset(a: Account, password: string, p: Policy): (b: Account)
    ensures forall q :: Verify(q, b.digest) <==> q == password
    ensures p.resetClearsLock ==> !b.isLocked && b.failedLoginAttempts == 0
    ensures !p.resetClearsLock ==> b.isLocked == a.isLocked && b.failedLoginAttempts == a.failedLoginAttempts
    ensures b.(digest := a.digest, isLocked := a.isLocked, failedLoginAttempts := a.failedLoginAttempts) == a
  {
    var b := a.(digest := Hash(password));
    if p.resetClearsLock then Unlocked(b) else b
  }

  /** A profile update request: fields left as None are kept. */
  datatype Changes = Changes(
    email: Option<string>,
    nickname: Option<string>,
    profile: map<string, string>)

  function Apply(a: Account, c: Changes): (b: Account)
    ensures b.email == (if c.email.Some? then c.email.value else a.email)
    ensures b.nickname == (if c.nickname.Some? then c.nickname.value else a.nickname)
    ensures b.profile.Keys == a.profile.Keys + c.profile.Keys
    ensures forall k :: k in c.profile ==> b.profile[k] == c.profile[k]
    ensures forall k :: k in a.profile && k !in c.profile ==> b.profile[k] == a.profile[k]
    ensures b.(email := a.email, nickname := a.nickname, profile := a.profile) == a
  {
    a.(email := if c.email.Some? then c.email.value else a.email,
       nickname := if c.nickname.Some? then c.nickname.value else a.nickname,
       profile := a.profile + c.profile)
  }

  predicate ChangesValid(c: Changes)
  {
    (c.email.Some? ==> ValidEmail(c.email.value))
    && (c.nickname.Some? ==> ValidNickname(c.nickname.value))
  }

  // ---------------------------------------------------------------------
  // Properties of the lifecycle that involve several steps
  // ---------------------------------------------------------------------

  /**
   After as many wrong passwords as the threshold, starting from a fresh
   verified account, the right password is refused; after an unlock it is
   accepted again.
   */
  lemma {:induction false} LockoutThenUnlock(a: Account, password: string, wrong: string, p: Policy)
    requires a.emailVerified && !a.isLocked && a.failedLoginAttempts == 0
    requires Verify(password, a.digest) && !Verify(wrong, a.digest)
    ensures var b := LoginRepeatedly(a, wrong, p, p.maxLoginAttempts);
      && b.isLocked
      && !AttemptLogin(b, password, p).granted
      && AttemptLogin(Unlocked(b), password, p).granted
  {
    WrongPasswordsLock(a, wrong, p, p.maxLoginAttempts);
  }

  /** Fewer wrong passwords than the threshold leave the account usable. */
  lemma {:induction false} BelowThresholdStaysOpen(a: Account, password: string, wrong: string, p: Policy, n: nat)
    requires a.emailVerified && !a.isLocked && a.failedLoginAttempts == 0
    requires Verify(password, a.digest) && !Verify(wrong, a.digest)
    requires n < p.maxLoginAttempts
    ensures var b := LoginRepeatedly(a, wrong, p, n);
      && b.failedLoginAttempts == n && !b.isLocked
      && AttemptLogin(b, password, p).granted
      && AttemptLogin(b, password, p).account.failedLoginAttempts == 0
  {
    WrongPasswordsLock(a, wrong, p, n);
  }

  /** Unlocking twice leaves the same account as unlocking once. */
  lemma UnlockIdempotent(a: Account)
    ensures Unlocked(Unlocked(a)) == Unlocked(a)
  {
  }

  /** A verification token works once: the second use of the same token fails. */
  lemma VerifyOnce(a: Account, token: string)
    requires Verified(a, token).Some?
    ensures Verified(Verified(a, token).value, token).None?
  {
  }

  /** After a reset the old password is refused and the new one accepted (when nothing else bars the login). */
  lemma ResetReplacesPassword(a: Account, previous: string, replacement: string, p: Policy)
    requires previous != replacement && a.emailVerified
    requires !a.isLocked || p.resetClearsLock
    ensures !AttemptLogin(PasswordReset(a, replacement, p), previous, p).granted
    ensures AttemptLogin(PasswordReset(a, replacement, p), replacement, p).granted
  {
  }
}
