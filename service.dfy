/**
 The account service: an in-memory table of accounts keyed by id, with the
 lookups, creation, update, deletion, login, verification, unlock, reset,
 listing and counting operations of `UserService`.

 The table is the class's `accounts` map; `order` keeps ids in insertion
 order, the order in which `ListUsers` pages through the table; `nextId`
 hands out fresh ids.
 */
module Service {
  import opened Credentials
  import opened Accounts

  predicate Distinct(s: seq<Id>)
  {
    forall i, j :: 0 <= i < j < |s| ==> s[i] != s[j]
  }

  /** A lookup key: by email (compared through `EmailKey`) or by nickname. */
  datatype Key = ByEmail(email: string) | ByNickname(nickname: string)

  predicate Matches(a: Account, p: Policy, k: Key)
  {
    match k
    case ByEmail(e) => EmailKey(p, a.email) == EmailKey(p, e)
    case ByNickname(n) => a.nickname == n
  }

  /** Some account other than `id` answers to `k`. */
  predicate TakenByOther(rows: map<Id, Account>, p: Policy, k: Key, id: Id)
  {
    exists other :: other in rows && other != id && Matches(rows[other], p, k)
  }

  /** Some account answers to `k`. */
  predicate Taken(rows: map<Id, Account>, p: Policy, k: Key)
  {
    exists id :: id in rows && Matches(rows[id], p, k)
  }

  /** No two accounts share an email (as compared) or a nickname. */
  predicate Unique(rows: map<Id, Account>, p: Policy)
  {
    forall a, b :: a in rows && b in rows && a != b ==>
      EmailKey(p, rows[a].email) != EmailKey(p, rows[b].email)
      && rows[a].nickname != rows[b].nickname
  }

  /** What every stored row satisfies. */
  predicate StoredRow(a: Account, id: Id, bound: Id, p: Policy)
  {
    a.id == id && id < bound
    && ValidEmail(a.email) && ValidNickname(a.nickname)
    && WithinLockout(a, p)
  }

  /** Every row is well formed and filed under its own id. */
  predicate AllStored(rows: map<Id, Account>, bound: Id, p: Policy)
  {
    forall id :: id in rows ==> StoredRow(rows[id], id, bound, p)
  }

  /** In a table without duplicates, a row that answers to `k` is the only one. */
  lemma OnlyMatch(rows: map<Id, Account>, p: Policy, k: Key, v: Account)
    requires Unique(rows, p)
    requires Matches(v, p, k) && exists id :: id in rows && rows[id] == v
    ensures forall id :: id in rows && Matches(rows[id], p, k) ==> rows[id] == v
  {
    var id0 :| id0 in rows && rows[id0] == v;
    forall id | id in rows && Matches(rows[id], p, k)
      ensures id == id0
    {
    }
  }

  /** The first row, in `ids` order, that answers to `k`. */
  function Find(rows: map<Id, Account>, ids: seq<Id>, p: Policy, k: Key): (r: Option<Account>)
    requires forall id :: id in ids ==> id in rows
    ensures r.Some? <==> exists id :: id in ids && Matches(rows[id], p, k)
    ensures r.Some? ==> Matches(r.value, p, k) && exists id :: id in ids && rows[id] == r.value
    decreases |ids|
  {
    if ids == [] then None
    else if Matches(rows[ids[0]], p, k) then Some(rows[ids[0]])
    else
      var r := Find(rows, ids[1..], p, k);
      assert forall id :: id in ids[1..] ==> id in ids;
      assert forall id :: id in ids ==> id == ids[0] || id in ids[1..];
      r
  }

  /** Positions of `s` holding an id other than `x`, in increasing order. */
  function Kept(s: seq<Id>, x: Id): (k: seq<nat>)
    ensures forall i :: 0 <= i < |k| ==> k[i] < |s| && s[k[i]] != x
    ensures forall i, j :: 0 <= i < j < |k| ==> k[i] < k[j]
    decreases |s|
  {
    if s == [] then []
    else
      var rest := Kept(s[1..], x);
      var shifted := seq(|rest|, i requires 0 <= i < |rest| => rest[i] + 1);
      assert forall i :: 0 <= i < |rest| ==> s[rest[i] + 1] == s[1..][rest[i]];
      if s[0] == x then shifted else [0] + shifted
  }

  /** `s` without `x`; `WithoutKeepsOrder` shows the order of the rest is kept. */
  function Without(s: seq<Id>, x: Id): (r: seq<Id>)
    ensures forall y :: y in r <==> y in s && y != x
    ensures Distinct(s) ==> Distinct(r)
    ensures Distinct(s) && x in s ==> |r| == |s| - 1
    ensures x !in s ==> r == s
    decreases |s|
  {
    if s == [] then []
    else
      var rest := Without(s[1..], x);
      assert forall y :: y in s <==> y == s[0] || y in s[1..];
      if s[0] == x then rest
      else
        assert Distinct(s) ==> s[0] !in s[1..];
        [s[0]] + rest
  }

  /** Removal keeps order: `Without(s, x)` is `s` read at the increasing positions `Kept(s, x)`. */
  lemma {:induction false} WithoutKeepsOrder(s: seq<Id>, x: Id)
    ensures |Without(s, x)| == |Kept(s, x)|
    ensures forall i :: 0 <= i < |Without(s, x)| ==> Without(s, x)[i] == s[Kept(s, x)[i]]
    decreases |s|
  {
    if s != [] {
      WithoutKeepsOrder(s[1..], x);
      var rest, k := Without(s[1..], x), Kept(s[1..], x);
      var shifted := seq(|k|, i requires 0 <= i < |k| => k[i] + 1);
      forall i | 0 <= i < |rest|
        ensures rest[i] == s[shifted[i]]
      {
        assert rest[i] == s[1..][k[i]];
      }
      if s[0] == x {
        assert Without(s, x) == rest;
        assert Kept(s, x) == shifted;
      } else {
        assert Without(s, x) == [s[0]] + rest;
        assert Kept(s, x) == [0] + shifted;
      }
    }
  }

  /**
   The table invariant: every row is well formed and filed under its own id,
   `ids` lists stored ids, each once and as many as there are rows (so all
   of them, by `ListsAllRows`), and emails and nicknames are unique.
   */
  ghost predicate Table(rows: map<Id, Account>, ids: seq<Id>, bound: Id, p: Policy)
  {
    && AllStored(rows, bound, p)
    && Distinct(ids) && |ids| == |rows|
    && (forall i :: 0 <= i < |ids| ==> ids[i] in rows)
    && Unique(rows, p)
  }

  function Elements(s: seq<Id>): set<Id>
  {
    set x | x in s
  }

  /** A sequence without repetitions has as many distinct elements as it is long. */
  lemma {:induction false} DistinctSize(s: seq<Id>)
    requires Distinct(s)
    ensures |Elements(s)| == |s|
    decreases |s|
  {
    if s != [] {
      var tail := s[1..];
      assert Distinct(tail) by {
        forall i, j | 0 <= i < j < |tail| ensures tail[i] != tail[j] {
          assert tail[i] == s[i + 1] && tail[j] == s[j + 1];
        }
      }
      DistinctSize(tail);
      assert s[0] !in tail by {
        forall k | 0 <= k < |tail| ensures tail[k] != s[0] {
          assert tail[k] == s[k + 1];
        }
      }
      var rest := Elements(tail);
      assert s[0] !in rest;
      assert Elements(s) == rest + {s[0]};
      assert |rest + {s[0]}| == |rest| + 1;
    }
  }

  lemma {:induction false} SubsetSize(a: set<Id>, b: set<Id>)
    requires a <= b
    ensures |a| <= |b|
    decreases |a|
  {
    if a != {} {
      var x :| x in a;
      SubsetSize(a - {x}, b - {x});
    }
  }

  /** The ids of a well-formed table list every row. */
  lemma ListsAllRows(rows: map<Id, Account>, ids: seq<Id>, bound: Id, p: Policy)
    requires Table(rows, ids, bound, p)
    ensures forall id :: id in rows ==> id in ids
  {
    var listed := Elements(ids);
    DistinctSize(ids);
    assert listed <= rows.Keys;
    if exists id :: id in rows && id !in ids {
      var id :| id in rows && id !in ids;
      SubsetSize(listed, rows.Keys - {id});
    }
  }

  /** Adding a row whose email and nickname no row holds keeps the rows unique. */
  lemma InsertKeepsUnique(rows: map<Id, Account>, p: Policy, id: Id, a: Account)
    requires Unique(rows, p) && id !in rows
    requires !Taken(rows, p, ByEmail(a.email)) && !Taken(rows, p, ByNickname(a.nickname))
    ensures Unique(rows[id := a], p)
  {
    var rows' := rows[id := a];
    forall x, y | x in rows' && y in rows' && x != y
      ensures EmailKey(p, rows'[x].email) != EmailKey(p, rows'[y].email)
      ensures rows'[x].nickname != rows'[y].nickname
    {
      if x == id {
        assert !Matches(rows[y], p, ByEmail(a.email)) && !Matches(rows[y], p, ByNickname(a.nickname));
      } else if y == id {
        assert !Matches(rows[x], p, ByEmail(a.email)) && !Matches(rows[x], p, ByNickname(a.nickname));
      }
    }
  }

  /** Raising the id bound and adding a well-formed row under the old bound keeps every row well formed. */
  lemma InsertKeepsRows(rows: map<Id, Account>, bound: Id, p: Policy, a: Account)
    requires AllStored(rows, bound, p)
    requires StoredRow(a, bound, bound + 1, p)
    ensures bound !in rows
    ensures AllStored(rows[bound := a], bound + 1, p)
  {
    var rows' := rows[bound := a];
    forall id | id in rows' ensures StoredRow(rows'[id], id, bound + 1, p) {
      if id != bound {
        assert StoredRow(rows[id], id, bound, p);
      }
    }
  }

  /** Storing a well-formed row under a fresh id, with an unused email and nickname, keeps the invariant. */
  lemma InsertKeepsTable(rows: map<Id, Account>, ids: seq<Id>, bound: Id, p: Policy, a: Account)
    requires Table(rows, ids, bound, p)
    requires StoredRow(a, bound, bound + 1, p)
    requires !Taken(rows, p, ByEmail(a.email)) && !Taken(rows, p, ByNickname(a.nickname))
    ensures bound !in rows
    ensures Table(rows[bound := a], ids + [bound], bound + 1, p)
  {
    InsertKeepsRows(rows, bound, p, a);
    InsertKeepsUnique(rows, p, bound, a);
    assert bound !in ids;
  }

  /** Replacing a row by one whose email and nickname no other row holds keeps the rows unique. */
  lemma ReplaceKeepsUnique(rows: map<Id, Account>, p: Policy, id: Id, b: Account)
    requires Unique(rows, p)
    requires !TakenByOther(rows, p, ByEmail(b.email), id)
    requires !TakenByOther(rows, p, ByNickname(b.nickname), id)
    ensures Unique(rows[id := b], p)
  {
    var rows' := rows[id := b];
    forall x, y | x in rows' && y in rows' && x != y
      ensures EmailKey(p, rows'[x].email) != EmailKey(p, rows'[y].email)
      ensures rows'[x].nickname != rows'[y].nickname
    {
      if x == id {
        assert !Matches(rows[y], p, ByEmail(b.email)) && !Matches(rows[y], p, ByNickname(b.nickname));
      } else if y == id {
        assert !Matches(rows[x], p, ByEmail(b.email)) && !Matches(rows[x], p, ByNickname(b.nickname));
      }
    }
  }

  /** Replacing a row by a well-formed one whose email and nickname no other row holds keeps the invariant. */
  lemma ReplaceKeepsTable(rows: map<Id, Account>, ids: seq<Id>, bound: Id, p: Policy, id: Id, b: Account)
    requires Table(rows, ids, bound, p) && id in rows
    requires StoredRow(b, id, bound, p)
    requires !TakenByOther(rows, p, ByEmail(b.email), id)
    requires !TakenByOther(rows, p, ByNickname(b.nickname), id)
    ensures Table(rows[id := b], ids, bound, p)
  {
    ReplaceKeepsUnique(rows, p, id, b);
    ReplaceKeepsRows(rows, bound, p, id, b);
  }

  /** Replacing a row of a table by a well-formed one keeps every row well formed. */
  lemma ReplaceKeepsRows(rows: map<Id, Account>, bound: Id, p: Policy, id: Id, b: Account)
    requires AllStored(rows, bound, p)
    requires StoredRow(b, id, bound, p)
    ensures AllStored(rows[id := b], bound, p)
  {
  }

  /** A change to a row that keeps its id, email and nickname, and respects lockout, keeps the invariant. */
  lemma SameKeysKeepTable(rows: map<Id, Account>, ids: seq<Id>, bound: Id, p: Policy, id: Id, b: Account)
    requires Table(rows, ids, bound, p) && id in rows
    requires b.id == id && b.email == rows[id].email && b.nickname == rows[id].nickname
    requires WithinLockout(b, p)
    ensures Table(rows[id := b], ids, bound, p)
  {
    assert StoredRow(rows[id], id, bound, p);
    forall other | other in rows && other != id
      ensures !Matches(rows[other], p, ByEmail(b.email)) && !Matches(rows[other], p, ByNickname(b.nickname))
    {
    }
    ReplaceKeepsTable(rows, ids, bound, p, id, b);
  }

  /** Removing an id keeps every remaining row well formed and the rows unique. */
  lemma RemoveKeepsRows(rows: map<Id, Account>, bound: Id, p: Policy, id: Id)
    requires AllStored(rows, bound, p)
    requires Unique(rows, p)
    ensures AllStored(rows - {id}, bound, p)
    ensures Unique(rows - {id}, p)
  {
  }

  /** Removing an id from a listing of all rows lists all remaining rows. */
  lemma RemoveKeepsIds(rows: map<Id, Account>, ids: seq<Id>, id: Id)
    requires Distinct(ids) && |ids| == |rows|
    requires forall i :: 0 <= i < |ids| ==> ids[i] in rows
    requires forall x :: x in rows ==> x in ids
    ensures Distinct(Without(ids, id))
    ensures |rows - {id}| == |Without(ids, id)| == if id in rows then |rows| - 1 else |rows|
    ensures forall i :: 0 <= i < |Without(ids, id)| ==> Without(ids, id)[i] in rows - {id}
  {
    var ids' := Without(ids, id);
    if id in rows {
      assert (rows - {id}).Keys == rows.Keys - {id};
    } else {
      assert rows - {id} == rows;
    }
    forall i | 0 <= i < |ids'| ensures ids'[i] in rows - {id} {
      assert ids'[i] in ids;
    }
  }

  /** Removing an id keeps the invariant. */
  lemma RemoveKeepsTable(rows: map<Id, Account>, ids: seq<Id>, bound: Id, p: Policy, id: Id)
    requires Table(rows, ids, bound, p)
    ensures Table(rows - {id}, Without(ids, id), bound, p)
    ensures |rows - {id}| == if id in rows then |rows| - 1 else |rows|
  {
    ListsAllRows(rows, ids, bound, p);
    RemoveKeepsIds(rows, ids, id);
    RemoveKeepsRows(rows, bound, p, id);
  }

  /** The number of positions from `skip` on, at most `limit` of them, that a listing of `n` ids has. */
  function PageLength(n: nat, skip: nat, limit: nat): nat
  {
    if skip >= n then 0 else Min(limit, n - skip)
  }

  /** The rows listed at positions `skip` up to `skip + limit` of `ids`. */
  function Page(rows: map<Id, Account>, ids: seq<Id>, skip: nat, limit: nat): (r: seq<Account>)
    requires Distinct(ids)
    requires forall i :: 0 <= i < |ids| ==> ids[i] in rows
    requires forall x :: x in rows ==> rows[x].id == x
    ensures |r| == PageLength(|ids|, skip, limit)
    ensures forall i :: 0 <= i < |r| ==> r[i].id in rows && rows[r[i].id] == r[i]
    ensures forall i :: 0 <= i < |r| ==> r[i].id == ids[skip + i]
    ensures forall i, j :: 0 <= i < j < |r| ==> r[i].id != r[j].id
  {
    var n := PageLength(|ids|, skip, limit);
    seq(n, i requires 0 <= i < n => rows[ids[skip + i]])
  }

  class UserService {
    const policy: Policy
    var accounts: map<Id, Account>
    var order: seq<Id>
    var nextId: Id

    ghost predicate Valid()
      reads this
    {
      Table(accounts, order, nextId, policy)
    }

    constructor (policy: Policy)
      ensures Valid()
      ensures this.policy == policy && accounts == map[] && order == []
    {
      this.policy := policy;
      accounts := map[];
      order := [];
      nextId := 0;
    }

    // -------------------------------------------------------------------
    // Lookups
    // -------------------------------------------------------------------

    /** `get_by_id`: the account with that id, None for an unknown id. */
    function GetById(id: Id): (r: Option<Account>)
      reads this
      requires Valid()
      ensures r.Some? <==> id in accounts
      ensures r.Some? ==> r.value.id == id && accounts[id] == r.value
    {
      if id in accounts then Some(accounts[id]) else None
    }

    /** The account answering to `k`; there is at most one. */
    function Lookup(k: Key): (r: Option<Account>)
      reads this
      requires Valid()
      ensures r.Some? <==> Taken(accounts, policy, k)
      ensures r.Some? ==> r.value.id in accounts && accounts[r.value.id] == r.value && Matches(r.value, policy, k)
    {
      ListsAllRows(accounts, order, nextId, policy);
      Find(accounts, order, policy, k)
    }

    /** Whether an account other than `id` answers to `k`. */
    function HeldByOther(k: Key, id: Id): (r: bool)
      reads this
      requires Valid()
      ensures r <==> TakenByOther(accounts, policy, k, id)
    {
      var holder := Lookup(k);
      if holder.Some? then
        OnlyMatch(accounts, policy, k, holder.value);
        holder.value.id != id
      else
        false
    }

    /** Whether applying `c` to account `id` would give it an email or nickname another account holds. */
    function Conflicts(c: Changes, id: Id): (r: bool)
      reads this
      requires Valid()
      ensures r <==>
        (c.email.Some? && TakenByOther(accounts, policy, ByEmail(c.email.value), id))
        || (c.nickname.Some? && TakenByOther(accounts, policy, ByNickname(c.nickname.value), id))
    {
      (c.email.Some? && HeldByOther(ByEmail(c.email.value), id))
      || (c.nickname.Some? && HeldByOther(ByNickname(c.nickname.value), id))
    }

    /** `get_by_email`: the account with that email, None when there is none. */
    function GetByEmail(email: string): (r: Option<Account>)
      reads this
      requires Valid()
      ensures r.Some? <==> exists id :: id in accounts && EmailKey(policy, accounts[id].email) == EmailKey(policy, email)
      ensures r.Some? ==> r.value.id in accounts && accounts[r.value.id] == r.value
      ensures r.Some? ==> EmailKey(policy, r.value.email) == EmailKey(policy, email)
    {
      Lookup(ByEmail(email))
    }

    /** `get_by_nickname`: the account with that nickname, None when there is none. */
    function GetByNickname(nickname: string): (r: Option<Account>)
      reads this
      requires Valid()
      ensures r.Some? <==> exists id :: id in accounts && accounts[id].nickname == nickname
      ensures r.Some? ==> r.value.id in accounts && accounts[r.value.id] == r.value && r.value.nickname == nickname
    {
      Lookup(ByNickname(nickname))
    }

    /** `is_account_locked`: whether the account with that email is locked; false when there is none. */
    function IsAccountLocked(email: string): (r: bool)
      reads this
      requires Valid()
      ensures r <==> exists id :: id in accounts && EmailKey(policy, accounts[id].email) == EmailKey(policy, email) && accounts[id].isLocked
    {
      var found := GetByEmail(email);
      found.Some? && found.value.isLocked
    }

    /** `list_users(skip, limit)`: at most `limit` accounts starting at position `skip`. */
    function ListUsers(skip: nat, limit: nat): (r: seq<Account>)
      reads this
      requires Valid()
      ensures |r| == PageLength(|accounts|, skip, limit)
      ensures forall i :: 0 <= i < |r| ==> r[i].id in accounts && accounts[r[i].id] == r[i]
      ensures forall i :: 0 <= i < |r| ==> r[i].id == order[skip + i]
      ensures forall i, j :: 0 <= i < j < |r| ==> r[i].id != r[j].id
    {
      Page(accounts, order, skip, limit)
    }

    /** `count`: the number of accounts. */
    function Count(): (n: nat)
      reads this
      requires Valid()
      ensures n == |accounts|
    {
      |order|
    }

    // -------------------------------------------------------------------
    // Creation
    // -------------------------------------------------------------------

    /**
     `create`: validates the input, refuses an email or nickname already in
     use, and otherwise stores a new, unverified, unlocked account holding
     the password's digest and the generated verification token.
     */
    method Create(email: string, nickname: string, password: string,
                  profile: map<string, string>, token: string) returns (r: Outcome)
      requires Valid()
      modifies this
      ensures Valid()
      ensures r == Fail(Invalid) <==> !(ValidEmail(email) && ValidNickname(nickname) && StrongPassword(password))
      ensures r == Fail(Conflict) <==>
        ValidEmail(email) && ValidNickname(nickname) && StrongPassword(password)
        && (Taken(old(accounts), policy, ByEmail(email)) || Taken(old(accounts), policy, ByNickname(nickname)))
      ensures r.Ok? <==>
        (ValidEmail(email) && ValidNickname(nickname) && StrongPassword(password)
         && !Taken(old(accounts), policy, ByEmail(email)) && !Taken(old(accounts), policy, ByNickname(nickname)))
      ensures r.Fail? ==> accounts == old(accounts) && order == old(order) && nextId == old(nextId)
      ensures r.Ok? ==>
        && r.account == NewAccount(old(nextId), email, nickname, password, profile, token)
        && r.account.id !in old(accounts)
        && accounts == old(accounts)[r.account.id := r.account]
        && order == old(order) + [r.account.id]
        && |accounts| == |old(accounts)| + 1
    {
      if !(ValidEmail(email) && ValidNickname(nickname) && StrongPassword(password)) {
        return Fail(Invalid);
      }
      if GetByEmail(email).Some? || GetByNickname(nickname).Some? {
        return Fail(Conflict);
      }
      var a := NewAccount(nextId, email, nickname, password, profile, token);
      InsertKeepsTable(accounts, order, nextId, policy, a);
      accounts := accounts[nextId := a];
      order := order + [nextId];
      nextId := nextId + 1;
      r := Ok(a);
    }

    /** `register_user`: self-registration goes through the same path as `create`. */
    method RegisterUser(email: string, nickname: string, password: string,
                        profile: map<string, string>, token: string) returns (r: Outcome)
      requires Valid()
      modifies this
      ensures Valid()
      ensures r == Fail(Invalid) <==> !(ValidEmail(email) && ValidNickname(nickname) && StrongPassword(password))
      ensures r == Fail(Conflict) <==>
        ValidEmail(email) && ValidNickname(nickname) && StrongPassword(password)
        && (Taken(old(accounts), policy, ByEmail(email)) || Taken(old(accounts), policy, ByNickname(nickname)))
      ensures r.Ok? <==>
        (ValidEmail(email) && ValidNickname(nickname) && StrongPassword(password)
         && !Taken(old(accounts), policy, ByEmail(email)) && !Taken(old(accounts), policy, ByNickname(nickname)))
      ensures r.Fail? ==> accounts == old(accounts) && order == old(order) && nextId == old(nextId)
      ensures r.Ok? ==>
        && r.account == NewAccount(old(nextId), email, nickname, password, profile, token)
        && r.account.id !in old(accounts)
        && accounts == old(accounts)[r.account.id := r.account]
        && order == old(order) + [r.account.id]
        && |accounts| == |old(accounts)| + 1
    {
      r := Create(email, nickname, password, profile, token);
    }

    // -------------------------------------------------------------------
    // Update and delete
    // -------------------------------------------------------------------

    /**
     `update`: an unknown id, an invalid email or nickname, or an email or
     nickname held by another account leave the table unchanged; otherwise
     the changes are applied to the stored account.
     */
    method Update(id: Id, c: Changes) returns (r: Outcome)
      requires Valid()
      modifies this
      ensures Valid()
      ensures order == old(order) && nextId == old(nextId)
      ensures r == Fail(NotFound) <==> id !in old(accounts)
      ensures r == Fail(Invalid) <==> id in old(accounts) && !ChangesValid(c)
      ensures r == Fail(Conflict) <==>
        id in old(accounts) && ChangesValid(c)
        && ((c.email.Some? && TakenByOther(old(accounts), policy, ByEmail(c.email.value), id))
            || (c.nickname.Some? && TakenByOther(old(accounts), policy, ByNickname(c.nickname.value), id)))
      ensures r.Ok? <==> id in old(accounts) && ChangesValid(c) && !old(Conflicts(c, id))
      ensures r.Fail? ==> accounts == old(accounts)
      ensures r.Ok? ==>
        (id in old(accounts) && r.account == Apply(old(accounts)[id], c)
         && accounts == old(accounts)[id := r.account])
    {
      if id !in accounts {
        return Fail(NotFound);
      }
      if !ChangesValid(c) {
        return Fail(Invalid);
      }
      if Conflicts(c, id) {
        return Fail(Conflict);
      }
      var b := Apply(accounts[id], c);
      assert StoredRow(accounts[id], id, nextId, policy);
      ReplaceKeepsTable(accounts, order, nextId, policy, id, b);
      accounts := accounts[id := b];
      r := Ok(b);
    }

    /** `delete`: true and the account gone when it existed, false otherwise. */
    method Delete(id: Id) returns (deleted: bool)
      requires Valid()
      modifies this
      ensures Valid()
      ensures deleted <==> id in old(accounts)
      ensures accounts == old(accounts) - {id}
      ensures order == Without(old(order), id) && nextId == old(nextId)
      ensures |accounts| == if deleted then |old(accounts)| - 1 else |old(accounts)|
    {
      deleted := id in accounts;
      RemoveKeepsTable(accounts, order, nextId, policy, id);
      accounts := accounts - {id};
      order := Without(order, id);
    }

    // -------------------------------------------------------------------
    // Login and lockout
    // -------------------------------------------------------------------

    /**
     `login_user`: the account with that email, attempted with `password`
     (see `AttemptLogin`); the account is returned only when access is
     granted, and the attempt's effect on the counter and lock is stored.
     */
    method LoginUser(email: string, password: string) returns (r: Option<Account>)
      requires Valid()
      modifies this
      ensures Valid()
      ensures order == old(order) && nextId == old(nextId)
      ensures old(GetByEmail(email)).None? ==> r.None? && accounts == old(accounts)
      ensures old(GetByEmail(email)).Some? ==>
        var a := old(GetByEmail(email)).value;
        var attempt := AttemptLogin(a, password, policy);
        && accounts == old(accounts)[a.id := attempt.account]
        && (r.Some? <==> attempt.granted)
        && (r.Some? ==> r.value == attempt.account)
    {
      var found := GetByEmail(email);
      if found.None? {
        return None;
      }
      var a := found.value;
      var attempt := AttemptLogin(a, password, policy);
      assert StoredRow(a, a.id, nextId, policy);
      SameKeysKeepTable(accounts, order, nextId, policy, a.id, attempt.account);
      accounts := accounts[a.id := attempt.account];
      r := if attempt.granted then Some(attempt.account) else None;
    }

    // -------------------------------------------------------------------
    // Verification, reset, unlock
    // -------------------------------------------------------------------

    /** `verify_email_with_token`: true exactly when the account exists, is not yet verified and the token is its pending one. */
    method VerifyEmailWithToken(id: Id, token: string) returns (ok: bool)
      requires Valid()
      modifies this
      ensures Valid()
      ensures order == old(order) && nextId == old(nextId)
      ensures ok <==> id in old(accounts) && !old(accounts)[id].emailVerified
                      && old(accounts)[id].verificationToken == Some(token)
      ensures ok ==> accounts == old(accounts)[id := Verified(old(accounts)[id], token).value]
      ensures !ok ==> accounts == old(accounts)
    {
      if id !in accounts {
        return false;
      }
      var v := Verified(accounts[id], token);
      ok := v.Some?;
      if ok {
        assert StoredRow(accounts[id], id, nextId, policy);
        SameKeysKeepTable(accounts, order, nextId, policy, id, v.value);
        accounts := accounts[id := v.value];
      }
    }

    /** `reset_password`: true and the new password's digest stored when the account exists, false otherwise. */
    method ResetPassword(id: Id, password: string) returns (ok: bool)
      requires Valid()
      modifies this
      ensures Valid()
      ensures order == old(order) && nextId == old(nextId)
      ensures ok <==> id in old(accounts)
      ensures ok ==> accounts == old(accounts)[id := PasswordReset(old(accounts)[id], password, policy)]
      ensures !ok ==> accounts == old(accounts)
    {
      ok := id in accounts;
      if ok {
        assert StoredRow(accounts[id], id, nextId, policy);
        SameKeysKeepTable(accounts, order, nextId, policy, id, PasswordReset(accounts[id], password, policy));
        accounts := accounts[id := PasswordReset(accounts[id], password, policy)];
      }
    }

    /** `unlock_user_account`: true and the account unlocked when it exists, false otherwise. */
    method UnlockUserAccount(id: Id) returns (ok: bool)
      requires Valid()
      modifies this
      ensures Valid()
      ensures order == old(order) && nextId == old(nextId)
      ensures ok <==> id in old(accounts)
      ensures ok ==> accounts == old(accounts)[id := Unlocked(old(accounts)[id])] && !accounts[id].isLocked
      ensures !ok ==> accounts == old(accounts)
    {
      ok := id in accounts;
      if ok {
        assert StoredRow(accounts[id], id, nextId, policy);
        SameKeysKeepTable(accounts, order, nextId, policy, id, Unlocked(accounts[id]));
        accounts := accounts[id := Unlocked(accounts[id])];
      }
    }

    // -------------------------------------------------------------------
    // Direct row writes (the tests set these columns on a stored account)
    // -------------------------------------------------------------------

    /** Marks the stored account's email as verified. */
    method ForceEmailVerified(id: Id) returns (ok: bool)
      requires Valid()
      modifies this
      ensures Valid()
      ensures order == old(order) && nextId == old(nextId)
      ensures ok <==> id in old(accounts)
      ensures ok ==> accounts == old(accounts)[id := old(accounts)[id].(emailVerified := true)]
      ensures !ok ==> accounts == old(accounts)
    {
      ok := id in accounts;
      if ok {
        assert StoredRow(accounts[id], id, nextId, policy);
        SameKeysKeepTable(accounts, order, nextId, policy, id, accounts[id].(emailVerified := true));
        accounts := accounts[id := accounts[id].(emailVerified := true)];
      }
    }

    /** Sets the stored account's lock flag. */
    method ForceLock(id: Id) returns (ok: bool)
      requires Valid()
      modifies this
      ensures Valid()
      ensures order == old(order) && nextId == old(nextId)
      ensures ok <==> id in old(accounts)
      ensures ok ==> accounts == old(accounts)[id := old(accounts)[id].(isLocked := true)]
      ensures !ok ==> accounts == old(accounts)
    {
      ok := id in accounts;
      if ok {
        assert StoredRow(accounts[id], id, nextId, policy);
        SameKeysKeepTable(accounts, order, nextId, policy, id, accounts[id].(isLocked := true));
        accounts := accounts[id := accounts[id].(isLocked := true)];
      }
    }

    /** Overwrites the stored account's pending verification token. */
    method ForceVerificationToken(id: Id, token: string) returns (ok: bool)
      requires Valid()
      modifies this
      ensures Valid()
      ensures order == old(order) && nextId == old(nextId)
      ensures ok <==> id in old(accounts)
      ensures ok ==> accounts == old(accounts)[id := old(accounts)[id].(verificationToken := Some(token))]
      ensures !ok ==> accounts == old(accounts)
    {
      ok := id in accounts;
      if ok {
        assert StoredRow(accounts[id], id, nextId, policy);
        SameKeysKeepTable(accounts, order, nextId, policy, id, accounts[id].(verificationToken := Some(token)));
        accounts := accounts[id := accounts[id].(verificationToken := Some(token))];
      }
    }
  }

  // ---------------------------------------------------------------------
  // Pagination
  // ---------------------------------------------------------------------

  /** Pages over positions that do not overlap hold different accounts. */
  lemma PagesDisjoint(s: UserService, skip: nat, limit: nat, later: nat, limit2: nat)
    requires s.Valid() && skip + limit <= later
    ensures var first, second := s.ListUsers(skip, limit), s.ListUsers(later, limit2);
      forall i, j :: 0 <= i < |first| && 0 <= j < |second| ==> first[i].id != second[j].id
  {
  }

  lemma PageLengthsAdd(n: nat, skip: nat, a: nat, b: nat)
    ensures PageLength(n, skip, a) + PageLength(n, skip + a, b) == PageLength(n, skip, a + b)
    ensures PageLength(n, skip, a) < PageLength(n, skip, a + b) ==> PageLength(n, skip, a) == a
  {
  }

  /** Position `i` of a page holds the row listed at position `skip + i`. */
  lemma PageAt(rows: map<Id, Account>, ids: seq<Id>, skip: nat, limit: nat, i: nat)
    requires Distinct(ids)
    requires forall k :: 0 <= k < |ids| ==> ids[k] in rows
    requires forall x :: x in rows ==> rows[x].id == x
    requires i < |Page(rows, ids, skip, limit)|
    ensures skip + i < |ids| && Page(rows, ids, skip, limit)[i] == rows[ids[skip + i]]
  {
  }

  /** Two adjacent pages make up the page of their combined length. */
  lemma PageConcat(rows: map<Id, Account>, ids: seq<Id>, skip: nat, a: nat, b: nat)
    requires Distinct(ids)
    requires forall i :: 0 <= i < |ids| ==> ids[i] in rows
    requires forall x :: x in rows ==> rows[x].id == x
    ensures Page(rows, ids, skip, a) + Page(rows, ids, skip + a, b) == Page(rows, ids, skip, a + b)
  {
    var first, second, whole := Page(rows, ids, skip, a), Page(rows, ids, skip + a, b), Page(rows, ids, skip, a + b);
    PageLengthsAdd(|ids|, skip, a, b);
    forall i | 0 <= i < |whole| ensures (first + second)[i] == whole[i] {
      PageAt(rows, ids, skip, a + b, i);
      if i < |first| {
        PageAt(rows, ids, skip, a, i);
      } else {
        PageAt(rows, ids, skip + a, b, i - a);
      }
    }
  }

  /** Reading a page and then the page right after it gives exactly one page of the combined length. */
  lemma PagesConcatenate(s: UserService, skip: nat, a: nat, b: nat)
    requires s.Valid()
    ensures s.ListUsers(skip, a) + s.ListUsers(skip + a, b) == s.ListUsers(skip, a + b)
  {
    PageConcat(s.accounts, s.order, skip, a, b);
  }

  /** `m` pages of `limit` accounts each, read one after the other from position `skip`. */
  function PagesFrom(s: UserService, skip: nat, limit: nat, m: nat): seq<Account>
    reads s
    requires s.Valid()
    decreases m
  {
    if m == 0 then [] else s.ListUsers(skip, limit) + PagesFrom(s, skip + limit, limit, m - 1)
  }

  /** The number of positions `m` pages of `limit` span. */
  function Span(limit: nat, m: nat): (n: nat)
    ensures n == m * limit
  {
    if m == 0 then 0 else limit + Span(limit, m - 1)
  }

  /** Reading `m` successive pages of a fixed size gives the accounts of one page `m` times as long: nothing repeated, nothing skipped. */
  lemma {:induction false} PagesFromIsOnePage(s: UserService, skip: nat, limit: nat, m: nat)
    requires s.Valid()
    ensures PagesFrom(s, skip, limit, m) == s.ListUsers(skip, Span(limit, m))
    decreases m
  {
    if m > 0 {
      PagesFromIsOnePage(s, skip + limit, limit, m - 1);
      PagesConcatenate(s, skip, limit, Span(limit, m - 1));
    }
  }

  /** A first page at least as long as the table lists every account. */
  lemma FirstPageListsAll(s: UserService, limit: nat)
    requires s.Valid() && limit >= s.Count()
    ensures |s.ListUsers(0, limit)| == |s.accounts|
    ensures (set a | a in s.ListUsers(0, limit) :: a.id) == s.accounts.Keys
  {
    var page := s.ListUsers(0, limit);
    ListsAllRows(s.accounts, s.order, s.nextId, s.policy);
    forall id | id in s.accounts ensures id in (set a | a in page :: a.id) {
      var i :| 0 <= i < |s.order| && s.order[i] == id;
      assert page[i].id == id;
    }
  }

  /** Two pages of ten over a table of at least twenty accounts are both full and start with different accounts. */
  lemma TenPerPage(s: UserService)
    requires s.Valid() && s.Count() >= 20
    ensures |s.ListUsers(0, 10)| == 10 && |s.ListUsers(10, 10)| == 10
    ensures s.ListUsers(0, 10)[0].id != s.ListUsers(10, 10)[0].id
  {
    PagesDisjoint(s, 0, 10, 10, 10);
  }
}
