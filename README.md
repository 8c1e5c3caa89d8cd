# Account lifecycle store of the event manager, in Dafny

This project models the user-account backend of the event manager. The core
is the account service (`UserService`): an in-memory table of accounts keyed
by id. Each account holds an email, a nickname, a password digest, a profile,
an `email_verified` flag, a pending verification token, a failed-login counter
and an `is_locked` flag. The model covers the service's operations:

- `create` and `register_user`;
- the lookups `get_by_id`, `get_by_email` and `get_by_nickname`;
- `update` and `delete`;
- `login_user`, with failed-login counting and lockout;
- `is_account_locked`;
- `verify_email_with_token`, `reset_password` and `unlock_user_account`;
- `list_users(skip, limit)` and `count`.

It also models the two dynamic-value helpers `is_empty` and `safe_get` of the
utility module.

The implementation of the service is not part of this model. Its behaviour
is fixed here by what the service's test suites assert. The tests leave some
behaviour open, and each such choice is a field of `Accounts.Policy`, set
when the store is built. Every contract and lemma holds for every policy:

- `maxLoginAttempts`: the lockout threshold, any positive number. One suite
  reads it from the settings. The other uses five.
- `caseInsensitiveEmail`: whether emails are compared after ASCII
  lower-casing.
- `countUnverifiedFailures`: whether login attempts on an unverified account
  reach the password check, and so the counter. They never succeed either
  way.
- `resetClearsLock`: whether a password reset also unlocks the account.

One natural setting compares emails case-insensitively, leaves unverified
accounts' counters alone and keeps the lock on reset: that is
`Policy(n, true, false, false)`. The tests pin none of these, so the model
does not either.

Verification by token follows the stricter rule. It succeeds only on an
account that is not yet verified and whose pending token matches. An
account that is already verified is refused whatever the token. The tests
verify only freshly created, unverified accounts, so they agree with this
rule.

Files:

- `credentials.dfy` (module `Credentials`): the password digest and the
  validity rules on emails, passwords and nicknames.
- `accounts.dfy` (module `Accounts`): one account and the transitions
  applied to it, on values. These are a login attempt, unlock, verification
  by token, password reset and profile update, with the lemmas relating
  several steps.
- `service.dfy` (module `Service`): the class `UserService`. Its fields are
  the `accounts` map, the insertion `order` of ids and the next free id, and
  its mutating methods have `modifies` clauses. The class invariant `Valid()`
  says four things:
  - every row is well formed and filed under its own id;
  - no row has reached the lockout threshold without being locked;
  - `order` lists every id once;
  - no two accounts share an email or a nickname.

  The file also holds the pagination lemmas.
- `scenarios.dfy` (module `Scenarios`): the tests' flows, each run against a
  fresh store and proved for all inputs of the right shape and all policies.
  Each method's postcondition states what the test asserts. Where it
  states more, the method's comment and its row below say what goes beyond
  the test.
- `common.dfy` (module `Common`): `is_empty` and `safe_get` over a `Value`
  datatype.

Results are tagged. Operations that return an account return an `Outcome`:
`Ok(account)`, or `Fail` with `NotFound`, `Invalid` or `Conflict`. The
service itself returns the account or `None`, and `Outcome.ToOption` gives
that view. Login returns `Option<Account>`, because its failures are not
meant to be told apart.

Three test functions of `tests/test_services/test_user_service.py` are
defined twice under the same name: `test_verify_email_with_token` (lines 109
and 268), `test_reset_password` (lines 124 and 262) and
`test_unlock_user_account` (lines 138 and 276). Python keeps only the later
definition, so the earlier bodies never run. The rows below cite the later
definitions and the equivalent tests of
`tests/test_services/test_user_service_coverage.py`.

## Model

| member | source | states |
|---|---|---|
| Common.IsEmpty | app/utils/common.py:8-9 | true exactly for the empty string, the empty list and None; false for every dictionary, integer and other value |
| Common.SafeGet | app/utils/common.py:11-12 | on a dictionary, an unhashable key (a list or a dictionary) raises the TypeError of `dict.get`; otherwise a key the dictionary holds gives the stored value and any other key the default; on anything that is not a dictionary, the default whatever the key, since the key is never hashed |
| Common.UnhashableKeyRaises | app/utils/common.py:12 | a list or dictionary used as a key raises on every dictionary whatever the default, and on a non-dictionary gives the default |
| Common.EmptyDictIsNotEmpty | app/utils/common.py:9 | an empty dictionary is not "empty" (it equals neither "" nor []) |
| Common.OmittedDefaultIsNone | app/utils/common.py:11 | with the default omitted, a missing hashable key or a non-dictionary yields None |
| Common.DefaultIrrelevantWhenPresent | app/utils/common.py:12 | when the key is present the default plays no part |
| Common.TestedEquations | tests/test_utils/test_common.py:7-20 | every equation the helpers' tests check holds |
| Credentials.VerifyHash | tests/test_services/test_user_service.py:80-106 | a password verifies against the digest of exactly itself: the right password is accepted and any other refused |
| Credentials.TestWitnessesRejected | tests/test_services/test_user_service.py:25-33 | the malformed inputs of the tests are rejected: "invalidemail", "not-an-email" and "registerinvalidemail" as emails, "short" and "pw" as passwords, "" as a nickname (also tests/test_services/test_user_service_coverage.py:27-31) |
| Credentials.ExampleComEmail | tests/test_services/test_user_service.py:47-51 | every address of the form local@example.com with a non-empty local part free of '@', as the tests build them around a generated uuid, is accepted |
| Credentials.TestWitnessesAccepted | tests/test_services/test_user_service.py:14-22 | the tests' fixed well-formed inputs are accepted: the emails valid_user@, updated_email@ and register_valid_user@example.com, and the passwords ValidPassword123!, StrongPassw0rd!, RegisterValid123!, MySuperPassword$1234, NewPassword123! and NewPassw0rd! (also lines 182-186, 213-221, 234-240, 262-265 and tests/test_services/test_user_service_coverage.py:135-141) |
| Accounts.NewAccount | tests/test_services/test_user_service.py:14-22 | a created row has the given id, email and nickname, verifies the given password, is unverified with the generated token pending, and is unlocked with a zero counter |
| Accounts.AttemptLogin | tests/test_services/test_user_service.py:80-106 | access is granted exactly when the account is unlocked, verified and the password right; only the counter and lock can change; a granted login leaves the counter at zero; a locked account is left untouched; a wrong password on an account that reaches the password check adds one to the counter and locks exactly at the threshold; the lockout invariant is kept |
| Accounts.WrongPasswordsLock | tests/test_services/test_user_service.py:253-259 | n consecutive wrong passwords from counter c leave the counter at min(c + n, threshold), lock the account exactly when c + n reaches the threshold, and change nothing else |
| Accounts.LockedStaysLocked | tests/test_services/test_user_service_coverage.py:85-94 | any number of attempts on a locked account leave it exactly as it was |
| Accounts.LockoutThenUnlock | tests/test_services/test_user_service_coverage.py:108-118 | after threshold-many wrong passwords on a fresh verified account, it is locked and the right password is refused; after an unlock the right password is accepted |
| Accounts.BelowThresholdStaysOpen | tests/test_services/test_user_service.py:253-259 | fewer wrong passwords than the threshold leave the account unlocked with the counter at n, and the right password then logs in and resets the counter |
| Accounts.Unlocked | tests/test_services/test_user_service.py:276-280 | an unlocked account is not locked and its counter is zero; nothing else changes |
| Accounts.UnlockIdempotent | tests/test_services/test_user_service.py:276-280 | unlocking twice gives the same account as unlocking once |
| Accounts.Verified | tests/test_services/test_user_service.py:268-273 | verification succeeds exactly on an unverified account whose pending token is the given one, so an already-verified account is refused; on success the account is verified, the token consumed and nothing else changed (also tests/test_services/test_user_service_coverage.py:121-132) |
| Accounts.VerifyOnce | tests/test_services/test_user_service_coverage.py:121-127 | a token that verified an account fails the second time; the test asserts only the first success, so the second use goes beyond it |
| Accounts.PasswordReset | tests/test_services/test_user_service_coverage.py:135-141 | after a reset exactly the new password verifies; the lock and counter are cleared if the policy says so and kept otherwise; nothing else changes |
| Accounts.ResetReplacesPassword | tests/test_services/test_user_service_coverage.py:135-141 | after a reset on a verified account, the old password is refused and the new one accepted, unless the account stays locked; the test asserts only that the reset succeeds, so both logins go beyond it |
| Accounts.Apply | tests/test_services/test_user_service.py:47-56 | an update sets each given field, merges the given profile entries over the old ones, and keeps everything else |
| Service.Find | tests/test_services/test_user_service.py:172-179 | finds an account answering to the key exactly when one is listed, and what it finds answers to the key |
| Service.Without | tests/test_services/test_user_service.py:64-77 | removing an id from the listing keeps exactly the other ids, and shortens a repetition-free listing by one when the id was there |
| Service.WithoutKeepsOrder | tests/test_services/test_user_service.py:64-77 | removing an id keeps the other ids in their order: the result is the listing read at the increasing positions that do not hold the removed id |
| Service.ListsAllRows | tests/test_services/test_user_service.py:155-159 | in a consistent table the listing order names every stored id |
| Service.InsertKeepsTable | tests/test_services/test_user_service_coverage.py:19-24 | storing a well-formed row under a fresh id with an unused email and nickname keeps the table invariant, so no email or nickname is ever shared |
| Service.ReplaceKeepsTable | tests/test_services/test_user_service.py:182-191 | replacing a row by a well-formed one whose email and nickname no other row holds keeps the invariant |
| Service.SameKeysKeepTable | tests/test_services/test_user_service.py:253-259 | a row change that keeps the id, email and nickname and respects the lockout bound keeps the invariant |
| Service.RemoveKeepsTable | tests/test_services/test_user_service.py:64-77 | removing an id keeps the invariant and shrinks the table by one exactly when the id was present |
| Service.Page | tests/test_services/test_user_service.py:205-210 | a page holds the stored rows at positions skip to skip + limit of the listing order, no more than are there, with no account twice |
| Service.UserService.GetById | tests/test_services/test_user_service.py:36-44 | finds the account exactly when the id is stored, and then the account with that id |
| Service.UserService.Lookup | tests/test_services/test_user_service.py:162-179 | finds an account exactly when some stored account answers to the key, and then a stored account that does |
| Service.UserService.HeldByOther | tests/test_services/test_user_service.py:182-191 | true exactly when an account other than the given id answers to the key |
| Service.UserService.Conflicts | tests/test_services/test_user_service.py:182-191 | true exactly when a requested new email or nickname is held by another account |
| Service.UserService.GetByEmail | tests/test_services/test_user_service.py:172-179 | finds an account exactly when a stored account's email compares equal to the given one, and then that account |
| Service.UserService.GetByNickname | tests/test_services/test_user_service.py:162-169 | finds an account exactly when a stored account has that nickname, and then that account |
| Service.UserService.IsAccountLocked | tests/test_services/test_user_service.py:253-259 | true exactly when the account with that email exists and is locked; false for an unknown email |
| Service.UserService.ListUsers | tests/test_services/test_user_service.py:205-210 | at most limit stored accounts, starting at position skip of the insertion order, none repeated; empty once skip reaches the count |
| Service.UserService.Count | tests/test_services/test_user_service.py:155-159 | the number of stored accounts |
| Service.UserService.Create | tests/test_services/test_user_service.py:14-33 | refuses invalid input with Invalid and a used email or nickname with Conflict, storing nothing; otherwise stores exactly the new unverified account under a fresh id, appends it to the listing, and the count grows by one; the invariant is kept |
| Service.UserService.RegisterUser | tests/test_services/test_user_service.py:213-231 | the same outcome and new state as creation: Invalid exactly for invalid input, Conflict exactly for a used email or nickname, storing nothing on failure; otherwise exactly the new account under a fresh id, appended to the listing, with the count one higher |
| Service.UserService.Update | tests/test_services/test_user_service.py:47-61 | NotFound exactly for an unknown id, Invalid exactly for an invalid email or nickname, Conflict exactly when another account holds the requested email or nickname; every failure changes nothing; otherwise the changes are applied to the stored row alone (also lines 182-191) |
| Service.UserService.Delete | tests/test_services/test_user_service.py:64-77 | true exactly when the id was stored; the row and its listing entry are gone and the count drops by one; nothing else changes (also lines 194-202) |
| Service.UserService.LoginUser | tests/test_services/test_user_service.py:80-106 | an unknown email gives None and changes nothing; otherwise the stored row becomes the login attempt's result and the account is returned exactly when access is granted (also lines 233-250) |
| Service.UserService.VerifyEmailWithToken | tests/test_services/test_user_service.py:268-273 | true exactly when the id is stored, its account is not yet verified and the token is its pending one, and then that row alone is verified with the token consumed; otherwise nothing changes (also tests/test_services/test_user_service_coverage.py:121-132) |
| Service.UserService.ResetPassword | tests/test_services/test_user_service.py:262-265 | true exactly when the id is stored, and then that row alone is reset to the new password; otherwise nothing changes (also tests/test_services/test_user_service_coverage.py:135-146) |
| Service.UserService.UnlockUserAccount | tests/test_services/test_user_service.py:276-280 | true exactly when the id is stored, and then that row alone is unlocked with a zero counter; otherwise nothing changes (also tests/test_services/test_user_service_coverage.py:148-161) |
| Service.UserService.ForceEmailVerified | tests/test_services/test_user_service.py:87-89 | a direct write of the stored row's verified flag, keeping the invariant |
| Service.UserService.ForceLock | tests/test_services/test_user_service.py:145-147 | a direct write of the stored row's lock flag, keeping the invariant |
| Service.UserService.ForceVerificationToken | tests/test_services/test_user_service.py:268-273 | a direct write of the stored row's pending token, keeping the invariant |
| Service.PagesDisjoint | tests/test_services/test_user_service.py:205-210 | pages over non-overlapping positions share no account |
| Service.PageConcat | tests/test_services/test_user_service.py:205-210 | a page followed by the page right after it is the page of their combined length |
| Service.PagesConcatenate | tests/test_services/test_user_service.py:205-210 | the same fact for the store's listing |
| Service.PagesFromIsOnePage | tests/test_services/test_user_service.py:205-210 | m successive pages of a fixed size are exactly one page m times as long: paging never repeats or skips an account |
| Service.FirstPageListsAll | tests/test_services/test_user_service.py:155-159 | a page from position 0 at least as long as the count lists every stored account |
| Service.TenPerPage | tests/test_services/test_user_service.py:205-210 | with at least twenty accounts, the pages (0, 10) and (10, 10) are both full and start with different accounts |
| Scenarios.VerifiedStore | tests/test_services/test_user_service.py:94-103 | creating an account and marking it verified leaves a store holding exactly that account |
| Scenarios.LockedStore | tests/test_services/test_user_service_coverage.py:85-92 | creating, verifying and locking leaves a store holding exactly that locked account |
| Scenarios.LoginSole | tests/test_services/test_user_service.py:104-106 | in a one-account store, a login by its email stores and reports the result of the login attempt |
| Scenarios.LoginTimes | tests/test_services/test_user_service.py:255-256 | n logins with one password leave the account as n successive attempts do |
| Scenarios.LockoutScenario | tests/test_services/test_user_service.py:253-259 | after at least threshold-many wrong passwords, is_account_locked is true and the right password is refused (also tests/test_services/test_user_service_coverage.py:108-118) |
| Scenarios.BelowThresholdScenario | tests/test_services/test_user_service.py:94-106 | after fewer wrong passwords than the threshold, the right password logs in, as the test asserts for a plain login; beyond it, the account is not locked and the counter is back at zero |
| Scenarios.UnlockScenario | tests/test_services/test_user_service.py:276-280 | unlocking a locked account succeeds and leaves it unlocked, as the test asserts; beyond it, the right password then logs in |
| Scenarios.UnknownUnlockScenario | tests/test_services/test_user_service_coverage.py:159-161 | unlocking an unknown id fails |
| Scenarios.UnverifiedLoginScenario | tests/test_services/test_user_service_coverage.py:77-82 | the right password on an unverified account gives None |
| Scenarios.LockedLoginScenario | tests/test_services/test_user_service_coverage.py:85-94 | the right password on a locked, verified account gives None |
| Scenarios.UnknownEmailLoginScenario | tests/test_services/test_user_service.py:243-245 | a login for an email no account has gives None |
| Scenarios.DuplicateEmailScenario | tests/test_services/test_user_service_coverage.py:19-24 | a second creation with the same email and a different nickname gives None, as the test asserts, refused as a conflict on the email alone; beyond it, the first creation succeeds with that email and one account exists |
| Scenarios.InvalidCreateScenario | tests/test_services/test_user_service_coverage.py:27-31 | invalid input gives None, as the test asserts; beyond it, the refusal is tagged Invalid and nothing is stored |
| Scenarios.VerificationScenario | tests/test_services/test_user_service_coverage.py:121-127 | the pending token of a new account verifies it, as the test asserts; beyond it, a different token tried first is refused |
| Scenarios.AssignedTokenScenario | tests/test_services/test_user_service.py:268-273 | a token written into the stored row of a freshly created, unverified account verifies it, as the test asserts; beyond it, the stored account is then verified |
| Scenarios.TokenReuseScenario | tests/test_services/test_user_service_coverage.py:130-132 | a token for an unknown id is refused, as the test asserts; beyond it, the pending token works once and not twice |
| Scenarios.ResetScenario | tests/test_services/test_user_service_coverage.py:135-146 | a reset of an existing id succeeds and of an unknown id fails |
| Scenarios.ResetOldPasswordScenario | tests/test_services/test_user_service_coverage.py:135-140 | the reset succeeds, which is all the test asserts; beyond it, the old password is then refused |
| Scenarios.ResetNewPasswordScenario | tests/test_services/test_user_service_coverage.py:135-140 | the reset succeeds, which is all the test asserts; beyond it, the new password then logs in |
| Scenarios.UpdateScenario | tests/test_services/test_user_service.py:181-186 | an update to a fresh email and a bio succeeds and sets both, as the tests assert; beyond them, the stored row is the returned one (also lines 47-56) |
| Scenarios.RefusedUpdateScenario | tests/test_services/test_user_service.py:189-191 | an update with an invalid email and one of an unknown id both give None, as the tests assert; beyond them, they are tagged Invalid and NotFound and the stored email is unchanged (also lines 59-61) |
| Scenarios.DeleteScenario | tests/test_services/test_user_service_coverage.py:53-58 | a delete of the created id succeeds, as the test asserts; beyond it, a second delete of that id fails and the id is no longer found |

## Left out

- `setup_logging` (app/utils/common.py:14-24) is left out because it reads a configuration file.
- Email sending is left out: SMTP, the email service and the templates. The tests replace them with mocks.
- The HTTP routes and their status codes are left out.
- The async database session is left out: commits, refreshes, transactions and timestamps.
- Concurrency is left out. That includes the atomicity of the counter update between concurrent logins, because every operation here runs alone.
- Credentials.Hash: not the real password-hashing library. It is an injective stand-in, and the service relies only on `Verify(p, Hash(q)) <==> p == q` (`VerifyHash`).
- Credentials.ValidEmail: a stand-in for the schema validators. The rule is one '@' with text on both sides, which rejects every malformed email the tests use; the real validator's full rule is not modelled.
- Credentials.StrongPassword: a stand-in rule of at least eight characters. It rejects "short" and "pw"; the real strength rule is not modelled.
- Credentials.ValidNickname: a stand-in rule of non-empty letters, digits, '_' and '-'.
- Service.UserService.Create: random generation is not modelled.
  - The verification token is a parameter.
  - Ids come from a counter instead of `uuid4`, which keeps them fresh.
  - The nickname is a parameter. Generating one when the input has none is not modelled.
  - Roles are not modelled, so role handling and its differences between `create` and `register_user` are left out.
- Service.UserService.Update: the failure path for a profile value that cannot be stored (tests/test_services/test_user_service_coverage.py:48-50) is not modelled, because profile values are strings here. On an unknown id that test returns None, which the model gives as NotFound.
- Service.UserService.Delete: ids are natural numbers, so the string id at tests/test_services/test_user_service.py:200 is just an unknown id here.
- Service.UserService.ListUsers: the default arguments are not modelled. `skip` and `limit` are natural numbers, so negative values are left out.
- Accounts.EmailKey: only the ASCII letters A-Z are folded when emails are compared case-insensitively. Unicode case folding, as Python's `str.lower` or a database's `lower` would apply to other letters, is not modelled.
- Common.Value: keeps the shapes the helpers distinguish. Python's cross-type equalities (such as `1 == True`) are not modelled. `Other` is taken to be hashable, so an unhashable value other than a list or a dictionary (a set, say) used as a key is not modelled as raising.
- Service.UserService.ListUsers: pages follow the order in which accounts were created. The source promises no order for listing, so this stable insertion order is the model's choice.
- The notification error that creation reports on its own when the verification email cannot be sent is left out together with the email sending.
