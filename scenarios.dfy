/**
 The account service's test flows, run against a fresh store: each method
 performs the calls a test makes. Its postcondition states what the test
 asserts and, where the method's comment says so, what follows from the
 same calls beyond it, for every input of the right shape and every policy.
 */
module Scenarios {
  import opened Credentials
  import opened Accounts
  import opened Service

  /** In a store holding one account, looking up that account's email finds it. */
  lemma SoleAccount(s: UserService, a: Account)
    requires s.Valid() && s.accounts == map[a.id := a]
    ensures s.GetByEmail(a.email) == Some(a)
  {
  }

  /** Login attempts never change an account's id or email. */
  lemma LoginKeepsEmail(a: Account, password: string, p: Policy, n: nat)
    ensures LoginRepeatedly(a, password, p, n).id == a.id
    ensures LoginRepeatedly(a, password, p, n).email == a.email
  {
  }

  /** A fresh store holding one account, created from the arguments and then marked verified. */
  method VerifiedStore(policy: Policy, email: string, nickname: string, password: string, token: string)
    returns (store: UserService, a: Account)
    requires ValidEmail(email) && ValidNickname(nickname) && StrongPassword(password)
    ensures fresh(store) && store.Valid() && store.policy == policy
    ensures store.accounts == map[a.id := a]
    ensures a == NewAccount(a.id, email, nickname, password, map[], token).(emailVerified := true)
  {
    store := new UserService(policy);
    var created := store.Create(email, nickname, password, map[], token);
    var _ := store.ForceEmailVerified(created.account.id);
    a := created.account.(emailVerified := true);
  }

  /** A fresh store holding one verified account that has been locked. */
  method LockedStore(policy: Policy, email: string, nickname: string, password: string, token: string)
    returns (store: UserService, a: Account)
    requires ValidEmail(email) && ValidNickname(nickname) && StrongPassword(password)
    ensures fresh(store) && store.Valid() && store.policy == policy
    ensures store.accounts == map[a.id := a]
    ensures a == NewAccount(a.id, email, nickname, password, map[], token).(emailVerified := true, isLocked := true)
  {
    var b;
    store, b := VerifiedStore(policy, email, nickname, password, token);
    var _ := store.ForceLock(b.id);
    a := b.(isLocked := true);
  }

  /** One login attempt with `password` on the only account of the store. */
  method LoginSole(store: UserService, a: Account, password: string) returns (r: Option<Account>)
    requires store.Valid() && store.accounts == map[a.id := a]
    modifies store
    ensures store.Valid()
    ensures var t := AttemptLogin(a, password, store.policy);
      && store.accounts == map[a.id := t.account]
      && (r.Some? <==> t.granted)
      && (r.Some? ==> r.value == t.account)
  {
    SoleAccount(store, a);
    r := store.LoginUser(a.email, password);
  }

  /** `n` login attempts with `password` on the only account of the store. */
  method LoginTimes(store: UserService, a: Account, password: string, n: nat)
    requires store.Valid() && store.accounts == map[a.id := a]
    modifies store
    ensures store.Valid()
    ensures store.accounts == map[a.id := LoginRepeatedly(a, password, store.policy, n)]
  {
    var i := 0;
    while i < n
      invariant 0 <= i <= n
      invariant store.Valid()
      invariant store.accounts == map[a.id := LoginRepeatedly(a, password, store.policy, i)]
    {
      LoginKeepsEmail(a, password, store.policy, i);
      var _ := LoginSole(store, LoginRepeatedly(a, password, store.policy, i), password);
      i := i + 1;
    }
  }

  /**
   Create, verify, then at least as many wrong-password logins as the
   threshold: the account is reported locked and the right password is
   then refused.
   */
  method LockoutScenario(policy: Policy, email: string, nickname: string, password: string,
                         wrong: string, token: string, failures: nat)
    returns (locked: bool, retry: Option<Account>)
    requires ValidEmail(email) && ValidNickname(nickname) && StrongPassword(password)
    requires wrong != password && failures >= policy.maxLoginAttempts
    ensures locked
    ensures retry.None?
  {
    var store, a := VerifiedStore(policy, email, nickname, password, token);
    VerifyHash(wrong, password);
    LoginTimes(store, a, wrong, failures);
    WrongPasswordsLock(a, wrong, policy, failures);
    SoleAccount(store, LoginRepeatedly(a, wrong, policy, failures));
    locked := store.IsAccountLocked(email);
    retry := store.LoginUser(email, password);
  }

  /**
   Fewer wrong passwords than the threshold leave the account usable and the
   right password resets the counter. The test asserts only the final
   successful login; the unlocked state and the counter go beyond it.
   */
  method BelowThresholdScenario(policy: Policy, email: string, nickname: string, password: string,
                                wrong: string, token: string, failures: nat)
    returns (locked: bool, login: Option<Account>)
    requires ValidEmail(email) && ValidNickname(nickname) && StrongPassword(password)
    requires wrong != password && failures < policy.maxLoginAttempts
    ensures !locked
    ensures login.Some? && login.value.email == email && login.value.failedLoginAttempts == 0
  {
    var store, a := VerifiedStore(policy, email, nickname, password, token);
    VerifyHash(wrong, password);
    LoginTimes(store, a, wrong, failures);
    WrongPasswordsLock(a, wrong, policy, failures);
    SoleAccount(store, LoginRepeatedly(a, wrong, policy, failures));
    locked := store.IsAccountLocked(email);
    login := store.LoginUser(email, password);
  }

  /**
   A locked account is unlocked by the administrator. The test asserts the
   unlock and that the account is no longer locked; the login with the right
   password that follows goes beyond it.
   */
  method UnlockScenario(policy: Policy, email: string, nickname: string, password: string, token: string)
    returns (unlocked: bool, login: Option<Account>)
    requires ValidEmail(email) && ValidNickname(nickname) && StrongPassword(password)
    ensures unlocked
    ensures login.Some? && login.value.email == email && !login.value.isLocked
  {
    var store, a := LockedStore(policy, email, nickname, password, token);
    unlocked := store.UnlockUserAccount(a.id);
    login := LoginSole(store, Unlocked(a), password);
  }

  /** Administrative unlock of an id that does not exist fails. */
  method UnknownUnlockScenario(policy: Policy, email: string, nickname: string, password: string, token: string)
    returns (unlocked: bool)
    requires ValidEmail(email) && ValidNickname(nickname) && StrongPassword(password)
    ensures !unlocked
  {
    var store, a := VerifiedStore(policy, email, nickname, password, token);
    unlocked := store.UnlockUserAccount(a.id + 1);
  }

  /** Login with the right password is refused while the email is unverified. */
  method UnverifiedLoginScenario(policy: Policy, email: string, nickname: string, password: string, token: string)
    returns (login: Option<Account>)
    requires ValidEmail(email) && ValidNickname(nickname) && StrongPassword(password)
    ensures login.None?
  {
    var store := new UserService(policy);
    var created := store.Create(email, nickname, password, map[], token);
    login := LoginSole(store, created.account, password);
  }

  /** Login with the right password is refused on a locked, verified account. */
  method LockedLoginScenario(policy: Policy, email: string, nickname: string, password: string, token: string)
    returns (login: Option<Account>)
    requires ValidEmail(email) && ValidNickname(nickname) && StrongPassword(password)
    ensures login.None?
  {
    var store, a := LockedStore(policy, email, nickname, password, token);
    login := LoginSole(store, a, password);
  }

  /** Login for an email no account has is refused. */
  method UnknownEmailLoginScenario(policy: Policy, email: string, password: string)
    returns (login: Option<Account>)
    ensures login.None?
  {
    var store := new UserService(policy);
    login := store.LoginUser(email, password);
  }

  /**
   Creating twice with the same email under different nicknames: the second
   creation gives None, which is what the test asserts, refused as a conflict
   on the email alone. Beyond it, the first creation succeeds with that email
   and one account exists.
   */
  method DuplicateEmailScenario(policy: Policy, email: string, nickname: string, other: string,
                                password: string, token: string)
    returns (first: Outcome, second: Outcome, count: nat)
    requires ValidEmail(email) && ValidNickname(nickname) && StrongPassword(password)
    requires ValidNickname(other) && other != nickname
    ensures second.ToOption().None? && second == Fail(Conflict)
    ensures first.Ok? && first.account.email == email
    ensures count == 1
  {
    var store := new UserService(policy);
    first := store.Create(email, nickname, password, map[], token);
    second := store.Create(email, other, password, map[], token);
    count := store.Count();
  }

  /** Invalid input gives None, as the test asserts; beyond it, the refusal is tagged Invalid and nothing is stored. */
  method InvalidCreateScenario(policy: Policy, email: string, nickname: string, password: string, token: string)
    returns (r: Outcome, count: nat)
    requires !ValidEmail(email) || !ValidNickname(nickname) || !StrongPassword(password)
    ensures r.ToOption().None? && r == Fail(Invalid)
    ensures count == 0
  {
    var store := new UserService(policy);
    r := store.Create(email, nickname, password, map[], token);
    count := store.Count();
  }

  /** A token other than the pending one is refused; the pending one verifies the account. */
  method VerificationScenario(policy: Policy, email: string, nickname: string, password: string,
                              token: string, other: string)
    returns (wrongToken: bool, verified: bool, nowVerified: bool)
    requires ValidEmail(email) && ValidNickname(nickname) && StrongPassword(password)
    requires other != token
    ensures !wrongToken && verified && nowVerified
  {
    var store := new UserService(policy);
    var created := store.Create(email, nickname, password, map[], token);
    var id := created.account.id;
    wrongToken := store.VerifyEmailWithToken(id, other);
    verified := store.VerifyEmailWithToken(id, token);
    nowVerified := store.accounts[id].emailVerified;
  }

  /**
   A token written into the stored row of a freshly created, unverified
   account verifies it, as the test asserts; beyond it, the stored account
   is then verified.
   */
  method AssignedTokenScenario(policy: Policy, email: string, nickname: string, password: string,
                               token: string, written: string)
    returns (verified: bool, nowVerified: bool)
    requires ValidEmail(email) && ValidNickname(nickname) && StrongPassword(password)
    ensures verified && nowVerified
  {
    var store := new UserService(policy);
    var created := store.Create(email, nickname, password, map[], token);
    var id := created.account.id;
    var _ := store.ForceVerificationToken(id, written);
    verified := store.VerifyEmailWithToken(id, written);
    nowVerified := store.accounts[id].emailVerified;
  }

  /**
   A token is refused for an unknown id, which is what the test asserts;
   beyond it, the pending token works once and not a second time.
   */
  method TokenReuseScenario(policy: Policy, email: string, nickname: string, password: string, token: string)
    returns (unknownId: bool, first: bool, again: bool)
    requires ValidEmail(email) && ValidNickname(nickname) && StrongPassword(password)
    ensures !unknownId && first && !again
  {
    var store := new UserService(policy);
    var created := store.Create(email, nickname, password, map[], token);
    var id := created.account.id;
    unknownId := store.VerifyEmailWithToken(id + 1, token);
    first := store.VerifyEmailWithToken(id, token);
    again := store.VerifyEmailWithToken(id, token);
  }

  /** A reset succeeds on an existing account and fails on an unknown id. */
  method ResetScenario(policy: Policy, email: string, nickname: string, password: string,
                       newPassword: string, token: string)
    returns (reset: bool, unknownReset: bool)
    requires ValidEmail(email) && ValidNickname(nickname) && StrongPassword(password)
    ensures reset && !unknownReset
  {
    var store, a := VerifiedStore(policy, email, nickname, password, token);
    reset := store.ResetPassword(a.id, newPassword);
    unknownReset := store.ResetPassword(a.id + 1, newPassword);
  }

  /** After a reset the old password is refused. The test asserts only that the reset succeeds; the refusal goes beyond it. */
  method ResetOldPasswordScenario(policy: Policy, email: string, nickname: string, password: string,
                                  newPassword: string, token: string)
    returns (login: Option<Account>)
    requires ValidEmail(email) && ValidNickname(nickname) && StrongPassword(password)
    requires newPassword != password
    ensures login.None?
  {
    var store, a := VerifiedStore(policy, email, nickname, password, token);
    var _ := store.ResetPassword(a.id, newPassword);
    login := LoginSole(store, PasswordReset(a, newPassword, policy), password);
  }

  /** After a reset the new password is accepted. The test asserts only that the reset succeeds; the login goes beyond it. */
  method ResetNewPasswordScenario(policy: Policy, email: string, nickname: string, password: string,
                                  newPassword: string, token: string)
    returns (login: Option<Account>)
    requires ValidEmail(email) && ValidNickname(nickname) && StrongPassword(password)
    ensures login.Some? && login.value.email == email
  {
    var store, a := VerifiedStore(policy, email, nickname, password, token);
    var _ := store.ResetPassword(a.id, newPassword);
    login := LoginSole(store, PasswordReset(a, newPassword, policy), newPassword);
  }

  /**
   Updating the email and a profile field succeeds and sets both, as the
   tests assert; beyond them, the stored account is the returned one.
   */
  method UpdateScenario(policy: Policy, email: string, nickname: string, password: string,
                        token: string, bio: string, newEmail: string)
    returns (updated: Outcome, stored: Option<Account>)
    requires ValidEmail(email) && ValidNickname(nickname) && StrongPassword(password)
    requires ValidEmail(newEmail)
    ensures updated.Ok? && updated.account.email == newEmail
    ensures "bio" in updated.account.profile && updated.account.profile["bio"] == bio
    ensures stored == Some(updated.account)
  {
    var store, a := VerifiedStore(policy, email, nickname, password, token);
    assert !TakenByOther(store.accounts, policy, ByEmail(newEmail), a.id);
    updated := store.Update(a.id, Changes(Some(newEmail), None, map["bio" := bio]));
    stored := store.GetById(a.id);
  }

  /**
   An update with an invalid email, or of an unknown id, gives None, as the
   tests assert; beyond them, the refusals are tagged Invalid and NotFound
   and the stored email is unchanged.
   */
  method RefusedUpdateScenario(policy: Policy, email: string, nickname: string, password: string,
                               token: string, bio: string)
    returns (badEmail: Outcome, unknown: Outcome, stored: Option<Account>)
    requires ValidEmail(email) && ValidNickname(nickname) && StrongPassword(password)
    ensures badEmail.ToOption().None? && badEmail == Fail(Invalid)
    ensures unknown.ToOption().None? && unknown == Fail(NotFound)
    ensures stored.Some? && stored.value.email == email
  {
    var store, a := VerifiedStore(policy, email, nickname, password, token);
    TestWitnessesRejected();
    badEmail := store.Update(a.id, Changes(Some("invalidemail"), None, map[]));
    unknown := store.Update(a.id + 1, Changes(None, None, map["bio" := bio]));
    stored := store.GetById(a.id);
  }

  /**
   Deleting a created account succeeds, as the test asserts. Beyond it, a
   second delete of the same id fails and the id is no longer found; the
   tests check a failing delete only on an id never stored.
   */
  method DeleteScenario(policy: Policy, email: string, nickname: string, password: string, token: string)
    returns (deleted: bool, deletedAgain: bool, found: Option<Account>)
    requires ValidEmail(email) && ValidNickname(nickname) && StrongPassword(password)
    ensures deleted && !deletedAgain && found.None?
  {
    var store, a := VerifiedStore(policy, email, nickname, password, token);
    deleted := store.Delete(a.id);
    deletedAgain := store.Delete(a.id);
    found := store.GetById(a.id);
  }
}
