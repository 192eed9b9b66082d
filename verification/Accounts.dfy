// Login lockout and the administrators: internal/auth/auth.go. Password hashing is a given
// answer per user; calls do not overlap; the clock is read where the code reads it.
module Accounts {
  import opened Wrappers

  type UserId = nat

  const ADMIN := "admin"
  const USER := "user"

  /** The lockout columns of a row of users. */
  datatype Account = Account(failed: nat, lockedUntil: Option<int>)

  datatype User = User(username: string, email: string, role: string, account: Account)

  type Users = map<UserId, User>

  datatype Error = AccountLocked | InvalidCredentials | Forbidden | Unauthorized | UserExists | InvalidRole

  // ----- one account -----

  type Positive = n: int | n >= 1 witness 1

  datatype Policy = Policy(maxAttempts: Positive, lockout: Positive)

  /** NewService's policy: its defaults wherever an option is not positive; times in nanoseconds. */
  function PolicyOf(maxLoginAttempts: int, lockoutDuration: int): (p: Policy)
    ensures p.maxAttempts != maxLoginAttempts ==> p.maxAttempts == 5 && maxLoginAttempts <= 0
    ensures p.lockout != lockoutDuration ==> p.lockout == 900_000_000_000 && lockoutDuration <= 0
  {
    Policy(if maxLoginAttempts > 0 then maxLoginAttempts else 5,
           if lockoutDuration > 0 then lockoutDuration else 15 * 60 * 1_000_000_000)
  }

  predicate IsLocked(a: Account, now: int)
  {
    a.lockedUntil.Some? && now < a.lockedUntil.value
  }

  const CLEARED := Account(0, None)

  /** Which of a login's statements the database carries out: the increment, the reading of the
      counter, the lock, the clearing after a success. The code goes on without those that fail. */
  datatype Stores = Stores(counts: bool, loads: bool, locks: bool, clears: bool)

  const STORED := Stores(true, true, true, true)

  /** The account after a password comparison; a failure that reaches the limit locks it at `now`. */
  function Compared(p: Policy, a: Account, ok: bool, stores: Stores, now: int): Account
  {
    if ok then if stores.clears then CLEARED else a
    else
      var counted := if stores.counts then a.(failed := a.failed + 1) else a;
      var attempts := if stores.loads then counted.failed else 0;
      if attempts >= p.maxAttempts && stores.locks then Account(0, Some(now + p.lockout))
      else counted
  }

  // ----- the table of users -----

  predicate Matches(u: User, identifier: string)
  {
    u.username == identifier || u.email == identifier
  }

  function Matching(users: Users, identifier: string): set<UserId>
  {
    set id | id in users && Matches(users[id], identifier)
  }

  /** No other user goes by a name or email of `u`. Names are unique and so are emails, so this
      fails only where one user's name is another's email. */
  predicate Sole(users: Users, u: UserId)
  {
    u in users && forall v :: v in users && v != u ==>
      !Matches(users[v], users[u].username) && !Matches(users[v], users[u].email)
  }

  /** A login: the lock is read from one matching row at `start`; if that row is not locked the
      password is compared with a matching row, read anew, and the outcome stored at `end`.
      `opens` are the users whose password was given. */
  predicate LogsIn(p: Policy, users: Users, identifier: string, opens: set<UserId>, start: int, end: int,
                   stores: Stores, checked: Option<UserId>, compared: Option<UserId>, users': Users)
  {
    && (checked.None? <==> Matching(users, identifier) == {})
    && (checked.Some? ==> checked.value in Matching(users, identifier))
    && (compared.None? <==> checked.None? || IsLocked(users[checked.value].account, start))
    && (compared.Some? ==> compared.value in Matching(users, identifier))
    && users' == match compared
                 case None => users
                 case Some(id) =>
                   users[id := users[id].(account := Compared(p, users[id].account, id in opens, stores, end))]
  }

  function Admins(users: Users): set<UserId>
  {
    set id | id in users && users[id].role == ADMIN
  }

  // ----- administrators -----

  predicate IsLastAdmin(users: Users, id: UserId)
  {
    id in users && Admins(users) == {id}
  }

  lemma OnlyAdmin(users: Users, id: UserId)
    requires id in users && users[id].role == ADMIN
    ensures |Admins(users)| <= 1 <==> Admins(users) == {id}
  {
    assert id in Admins(users);
    assert Admins(users) == (Admins(users) - {id}) + {id};
  }

  datatype Op =
    | Create(id: UserId, username: string, email: string, requested: string)
    | Delete(actor: UserId, target: UserId)
    | SetRole(target: UserId, newRole: string)

  function Applied(users: Users, op: Op): Users
  {
    match op
    case Create(id, name, email, requested) =>
      if id in users || exists i :: i in users && (users[i].username == name || users[i].email == email) then users
      else users[id := User(name, email, if requested == ADMIN then ADMIN else USER, CLEARED)]
    case Delete(actor, target) =>
      if actor == target || target !in users || IsLastAdmin(users, target) then users else users - {target}
    case SetRole(target, role) =>
      if (role != ADMIN && role != USER) || target !in users || (role == USER && IsLastAdmin(users, target)) then users
      else users[target := users[target].(role := role)]
  }

  // ----- the service -----

  class Service {
    const policy: Policy
    var users: Users

    constructor (maxLoginAttempts: int, lockoutDuration: int, users: Users)
      ensures policy == PolicyOf(maxLoginAttempts, lockoutDuration) && this.users == users
    {
      policy := PolicyOf(maxLoginAttempts, lockoutDuration);
      this.users := users;
    }

    /** Some row whose name or email is the identifier, as QueryRow picks one. */
    method FindRow(identifier: string) returns (row: Option<UserId>)
      ensures row.None? <==> Matching(users, identifier) == {}
      ensures row.None? <==>
                forall id :: id in users ==> users[id].username != identifier && users[id].email != identifier
      ensures row.Some? ==> row.value in Matching(users, identifier)
    {
      var matching := Matching(users, identifier);
      assert forall id :: id in users && Matches(users[id], identifier) ==> id in matching;
      if matching == {} {
        return None;
      }
      var id :| id in matching;
      return Some(id);
    }

    method Login(identifier: string, opens: set<UserId>, start: int, end: int, stores: Stores)
      returns (r: Result<UserId, Error>, ghost checked: Option<UserId>, ghost compared: Option<UserId>)
      modifies this
      ensures LogsIn(policy, old(users), identifier, opens, start, end, stores, checked, compared, users)
      ensures checked.None? <==>
                forall id :: id in old(users) ==>
                  old(users)[id].username != identifier && old(users)[id].email != identifier
      ensures checked.Some? ==>
                && checked.value in old(users)
                && (old(users)[checked.value].username == identifier || old(users)[checked.value].email == identifier)
      ensures r == Err(AccountLocked) <==>
                checked.Some? &&
                var lock := old(users)[checked.value].account.lockedUntil; lock.Some? && start < lock.value
      ensures r == match compared
                   case Some(id) => if id in opens then Ok(id) else Err(InvalidCredentials)
                   case None => Err(if checked.Some? then AccountLocked else InvalidCredentials)
    {
      compared := None;
      var lockRow := FindRow(identifier);
      checked := lockRow;
      var lockedUntil := if lockRow.Some? then users[lockRow.value].account.lockedUntil else None;
      if lockedUntil.Some? && start < lockedUntil.value {
        return Err(AccountLocked), checked, compared;
      }
      var row := FindRow(identifier);
      compared := row;
      if row.None? {
        return Err(InvalidCredentials), checked, compared;
      }
      var id := row.value;
      if id !in opens {
        RecordFailure(id, end, stores);
        return Err(InvalidCredentials), checked, compared;
      }
      if stores.clears {
        SetAccount(id, CLEARED);
      } else {
        SetAccount(id, users[id].account);
      }
      return Ok(id), checked, compared;
    }

    method RecordFailure(id: UserId, end: int, stores: Stores)
      requires id in users
      modifies this
      ensures var u := old(users)[id];
              users == old(users)[id := u.(account := Compared(policy, u.account, false, stores, end))]
      ensures var a := old(users)[id].account;
              var failed := a.failed + if stores.counts then 1 else 0;
              users[id].account == if stores.loads && stores.locks && failed >= policy.maxAttempts
                                   then Account(0, Some(end + policy.lockout)) else Account(failed, a.lockedUntil)
    {
      SetAccount(id, users[id].account);
      if stores.counts {
        SetAccount(id, Account(users[id].account.failed + 1, users[id].account.lockedUntil));
      }
      var attempts := 0;
      if stores.loads {
        attempts := users[id].account.failed;
      }
      if attempts >= policy.maxAttempts && stores.locks {
        SetAccount(id, Account(0, Some(end + policy.lockout)));
      }
    }

    method SetAccount(id: UserId, account: Account)
      requires id in users
      modifies this
      ensures users == old(users)[id := old(users)[id].(account := account)]
    {
      users := users[id := users[id].(account := account)];
    }

    method UnlockUser(id: UserId) returns (error: Option<Error>)
      modifies this
      ensures error == if id in old(users) then None else Some(Unauthorized)
      ensures users == if id in old(users) then old(users)[id := old(users)[id].(account := CLEARED)] else old(users)
    {
      if id !in users {
        return Some(Unauthorized);
      }
      SetAccount(id, CLEARED);
      return None;
    }

    method CreateUser(id: UserId, username: string, email: string, requested: string) returns (error: Option<Error>)
      requires id !in users
      modifies this
      ensures users == Applied(old(users), Create(id, username, email, requested))
      ensures error.None? <==>
                forall i :: i in old(users) ==> old(users)[i].username != username && old(users)[i].email != email
      ensures error.Some? ==> users == old(users) && error.value == UserExists
      ensures error.None? ==>
                users == old(users)[id := User(username, email, if requested == "admin" then "admin" else "user",
                                               Account(0, None))]
    {
      var role := requested;
      if role != ADMIN && role != USER {
        role := USER;
      }
      if exists i :: i in users && (users[i].username == username || users[i].email == email) {
        return Some(UserExists);
      }
      users := users[id := User(username, email, role, CLEARED)];
      return None;
    }

    method DeleteUser(actor: UserId, target: UserId) returns (error: Option<Error>)
      modifies this
      ensures users == Applied(old(users), Delete(actor, target))
      ensures users == if error.None? then old(users) - {target} else old(users)
      ensures error.None? <==> actor != target && target in old(users) && !IsLastAdmin(old(users), target)
      ensures error.Some? ==>
                error.value == if actor == target || target in old(users) then Forbidden else Unauthorized
    {
      if actor == target {
        return Some(Forbidden);
      }
      if target !in users {
        return Some(Unauthorized);
      }
      if users[target].role == ADMIN {
        var adminCount := |Admins(users)|;
        OnlyAdmin(users, target);
        if adminCount <= 1 {
          return Some(Forbidden);
        }
      }
      users := users - {target};
      return None;
    }

    method UpdateUserRole(target: UserId, newRole: string) returns (error: Option<Error>)
      modifies this
      ensures users == Applied(old(users), SetRole(target, newRole))
      ensures error.None? <==> (newRole == "admin" || newRole == "user") && target in old(users) &&
                               !(newRole == "user" && IsLastAdmin(old(users), target))
      ensures users == if error.None? then old(users)[target := old(users)[target].(role := newRole)] else old(users)
      ensures error.Some? ==>
                error.value == if newRole != ADMIN && newRole != USER then InvalidRole
                               else if target in old(users) then Forbidden else Unauthorized
    {
      if newRole != ADMIN && newRole != USER {
        return Some(InvalidRole);
      }
      if target !in users {
        return Some(Unauthorized);
      }
      if users[target].role == ADMIN && newRole != ADMIN {
        var adminCount := |Admins(users)|;
        OnlyAdmin(users, target);
        if adminCount <= 1 {
          return Some(Forbidden);
        }
      }
      users := users[target := users[target].(role := newRole)];
      return None;
    }
  }

  // ----- whole runs -----

  datatype Call =
    | Login(identifier: string, opens: set<UserId>, start: int, at: int, end: int, stores: Stores)
    | Unlock(id: UserId, at: int)
    | Manage(op: Op, at: int)

  /** A call that was made; a login with the rows whose lock and whose password it looked at. */
  datatype Done = Done(call: Call, checked: Option<UserId>, compared: Option<UserId>)

  predicate Leads(p: Policy, users: Users, d: Done, users': Users)
  {
    match d.call
    case Login(identifier, opens, start, _, end, stores) =>
      LogsIn(p, users, identifier, opens, start, end, stores, d.checked, d.compared, users')
    case Unlock(id, _) =>
      users' == if id in users then users[id := users[id].(account := CLEARED)] else users
    case Manage(op, _) => users' == Applied(users, op)
  }

  predicate LeadsAt(p: Policy, us: seq<Users>, ds: seq<Done>, k: nat)
    requires k + 1 < |us| && k < |ds|
  {
    Leads(p, us[k], ds[k], us[k + 1])
  }

  /** The tables before, between and after the calls `ds`, made one after the other. */
  predicate IsRun(p: Policy, us: seq<Users>, ds: seq<Done>)
  {
    |us| == |ds| + 1 && forall k: nat :: k < |ds| ==> LeadsAt(p, us, ds, k)
  }

  function Begin(c: Call): int
  {
    if c.Login? then c.start else c.at
  }

  function End(c: Call): int
  {
    if c.Login? then c.end else c.at
  }

  /** Calls do not overlap and the clock does not go back. */
  predicate Ordered(ds: seq<Done>)
  {
    && (forall i :: 0 <= i < |ds| ==> Begin(ds[i].call) <= ds[i].call.at <= End(ds[i].call))
    && (forall i, j :: 0 <= i < j < |ds| ==> End(ds[i].call) <= Begin(ds[j].call))
  }

  predicate ExistsThroughout(us: seq<Users>, u: UserId)
  {
    forall k :: 0 <= k < |us| ==> u in us[k]
  }

  /** A login that compares with the user's password has looked at the user's own lock. */
  predicate LooksAtOwnLock(d: Done, u: UserId)
  {
    d.call.Login? && d.compared == Some(u) ==> d.checked == Some(u)
  }

  predicate OwnLocks(ds: seq<Done>, u: UserId)
  {
    forall d :: d in ds ==> LooksAtOwnLock(d, u)
  }

  /** It always does if nobody else goes by the user's name or email. */
  lemma SoleUsersLookAtOwnLock(p: Policy, users: Users, d: Done, users': Users, u: UserId)
    requires Leads(p, users, d, users') && Sole(users, u)
    ensures LooksAtOwnLock(d, u)
  {
    if d.call.Login? && d.compared == Some(u) {
      assert u in Matching(users, d.call.identifier) && d.checked.value in Matching(users, d.call.identifier);
    }
  }

  /** A password was compared with the user's and is another. */
  predicate FailsOn(d: Done, u: UserId)
  {
    d.call.Login? && d.compared == Some(u) && u !in d.call.opens
  }

  /** The user is unlocked, or logs in and the success is recorded. */
  predicate ResetsOn(d: Done, u: UserId)
  {
    (d.call.Unlock? && d.call.id == u) ||
    (d.call.Login? && d.compared == Some(u) && u in d.call.opens && d.call.stores.clears)
  }

  /** A failed comparison with some statement that failed. */
  predicate MissedOn(d: Done, u: UserId)
  {
    FailsOn(d, u) && !(d.call.stores.counts && d.call.stores.loads && d.call.stores.locks)
  }

  /** What one call means to the account of a user whose own lock it looks at. */
  lemma CallOn(p: Policy, users: Users, d: Done, users': Users, u: UserId)
    requires Leads(p, users, d, users') && u in users && u in users' && LooksAtOwnLock(d, u)
    ensures users'[u].account ==
            if FailsOn(d, u) then Compared(p, users[u].account, false, d.call.stores, d.call.end)
            else if ResetsOn(d, u) then CLEARED else users[u].account
    ensures FailsOn(d, u) ==> !IsLocked(users[u].account, d.call.start)
  {
  }

  /** Once there is an administrator, no run of logins, unlocks, creations, deletions and role
      changes leaves none. */
  lemma {:induction false} AnAdminAlwaysRemains(p: Policy, us: seq<Users>, ds: seq<Done>, k: nat)
    requires IsRun(p, us, ds) && k < |us| && Admins(us[0]) != {}
    ensures Admins(us[k]) != {}
  {
    if k > 0 {
      AnAdminAlwaysRemains(p, us, ds, k - 1);
      assert LeadsAt(p, us, ds, k - 1);
      AdminKept(p, us[k - 1], ds[k - 1], us[k]);
    }
  }

  lemma AdminKept(p: Policy, users: Users, d: Done, users': Users)
    requires Leads(p, users, d, users') && Admins(users) != {}
    ensures Admins(users') != {}
  {
    var i :| i in Admins(users);
    if d.call.Manage? {
      AdminKeptByManaging(users, d.call.op);
    } else {
      assert i in Admins(users');
    }
  }

  lemma AdminKeptByManaging(users: Users, op: Op)
    requires Admins(users) != {}
    ensures Admins(Applied(users, op)) != {}
  {
  }

  /** The call gives the user the administrator's role. */
  predicate Promotes(d: Done, i: UserId)
  {
    && d.call.Manage?
    && ((d.call.op.Create? && d.call.op.id == i && d.call.op.requested == "admin") ||
        (d.call.op.SetRole? && d.call.op.target == i && d.call.op.newRole == "admin"))
  }

  /** Nobody becomes an administrator in any other way. */
  lemma {:induction false} AdminsArePromoted(p: Policy, us: seq<Users>, ds: seq<Done>, k: nat, i: UserId)
    requires IsRun(p, us, ds) && k < |us| && i in Admins(us[k])
    ensures i in Admins(us[0]) || exists j :: 0 <= j < k && Promotes(ds[j], i)
  {
    if k > 0 && i in Admins(us[k - 1]) {
      AdminsArePromoted(p, us, ds, k - 1, i);
    } else if k > 0 {
      assert LeadsAt(p, us, ds, k - 1);
      assert Promotes(ds[k - 1], i);
    }
  }

  // ----- the counter -----

  lemma {:induction false} FurtherApart(m: nat, y: int, d: nat)
    requires d >= 1
    ensures m * (y + d) >= m * y + m
  {
  }

  lemma DivisionUnique(m: nat, x: int, y: int, r: nat, t: nat)
    requires r < m && t < m && m * x + r == m * y + t
    ensures r == t
  {
    if x > y {
      FurtherApart(m, y, x - y);
    } else if x < y {
      FurtherApart(m, x, y - x);
    }
  }

  lemma ModuloStep(f: nat, m: nat)
    requires m >= 1
    ensures (f + 1) % m == if f % m + 1 >= m then 0 else f % m + 1
  {
    var q, r := f / m, f % m;
    var q', r' := (f + 1) / m, (f + 1) % m;
    assert m * q + r + 1 == m * q' + r';
    if r + 1 >= m {
      assert m * (q + 1) == m * q + m;
      DivisionUnique(m, q + 1, q', 0, r');
    } else {
      DivisionUnique(m, q, q', r + 1, r');
    }
  }

  /** A counter that starts again at every `m`-th failure. */
  function Wrapped(f: nat, m: nat): nat
  {
    if f == 0 then 0 else if Wrapped(f - 1, m) + 1 >= m then 0 else Wrapped(f - 1, m) + 1
  }

  lemma {:induction false} WrappedIsModulo(f: nat, m: nat)
    requires m >= 1
    ensures Wrapped(f, m) == f % m
  {
    if f > 0 {
      WrappedIsModulo(f - 1, m);
      ModuloStep(f - 1, m);
    }
  }

  lemma {:induction false} WrappedBelow(f: nat, m: nat)
    requires m >= 1
    ensures Wrapped(f, m) < m && (f < m ==> Wrapped(f, m) == f)
  {
    if f > 0 {
      WrappedBelow(f - 1, m);
    }
  }

  /** The failed comparisons among the first `k` calls since the last success or unlock. */
  function FailuresSinceReset(ds: seq<Done>, u: UserId, k: nat): nat
    requires k <= |ds|
  {
    if k == 0 || ResetsOn(ds[k - 1], u) then 0
    else FailuresSinceReset(ds, u, k - 1) + if FailsOn(ds[k - 1], u) then 1 else 0
  }

  /** The account is in step with `f` failures since the last success or unlock: its counter is
      what remains of them after the last lock, and it carries a lock once they reach the limit. */
  predicate Counts(p: Policy, a: Account, f: nat)
  {
    && a.failed == Wrapped(f, p.maxAttempts)
    && a.failed < p.maxAttempts
    && (a.lockedUntil.Some? <==> f >= p.maxAttempts)
  }

  lemma CountsOneMore(p: Policy, a: Account, f: nat, stores: Stores, now: int)
    requires Counts(p, a, f) && stores.counts && stores.loads && stores.locks
    ensures Counts(p, Compared(p, a, false, stores, now), f + 1)
  {
    WrappedBelow(f, p.maxAttempts);
  }

  lemma {:induction false} InStep(p: Policy, us: seq<Users>, ds: seq<Done>, u: UserId, k: nat)
    requires IsRun(p, us, ds) && k < |us| && ExistsThroughout(us, u) && OwnLocks(ds, u) && us[0][u].account == CLEARED
    requires forall d :: d in ds ==> !MissedOn(d, u)
    ensures Counts(p, us[k][u].account, FailuresSinceReset(ds, u, k))
  {
    if k > 0 {
      InStep(p, us, ds, u, k - 1);
      assert LeadsAt(p, us, ds, k - 1);
      assert ds[k - 1] in ds;
      CallOn(p, us[k - 1], ds[k - 1], us[k], u);
      if FailsOn(ds[k - 1], u) {
        var c := ds[k - 1].call;
        CountsOneMore(p, us[k - 1][u].account, FailuresSinceReset(ds, u, k - 1), c.stores, c.end);
      }
    }
  }

  /** As long as every statement after a failure is carried out, the counter of a user created in
      the run stays below the limit between calls: it is the number of failed comparisons since
      the last success or unlock, counted afresh after every lock; and the account carries a lock
      exactly when there have been at least as many as the limit. */
  lemma CounterIsExact(p: Policy, us: seq<Users>, ds: seq<Done>, u: UserId, k: nat)
    requires IsRun(p, us, ds) && k < |us| && ExistsThroughout(us, u) && OwnLocks(ds, u) && us[0][u].account == CLEARED
    requires forall d :: d in ds ==> !MissedOn(d, u)
    ensures var a, f := us[k][u].account, FailuresSinceReset(ds, u, k);
            a.failed == f % p.maxAttempts && a.failed < p.maxAttempts && (a.lockedUntil.Some? <==> f >= p.maxAttempts)
  {
    InStep(p, us, ds, u, k);
    WrappedIsModulo(FailuresSinceReset(ds, u, k), p.maxAttempts);
  }

  // ----- the lock -----

  /** Of the first `k` calls, the one whose failure last reached the limit, unless a success or an
      unlock came after it. */
  function LockingCall(p: Policy, ds: seq<Done>, u: UserId, k: nat): (i: Option<nat>)
    requires k <= |ds|
    ensures i.Some? ==> i.value < k && FailsOn(ds[i.value], u)
  {
    if k == 0 || ResetsOn(ds[k - 1], u) then None
    else if FailsOn(ds[k - 1], u) && FailuresSinceReset(ds, u, k) % p.maxAttempts == 0 then Some(k - 1)
    else LockingCall(p, ds, u, k - 1)
  }

  lemma LocksAtLimit(p: Policy, a: Account, f: nat, stores: Stores, now: int)
    requires Counts(p, a, f) && stores.counts && stores.loads && stores.locks
    ensures Compared(p, a, false, stores, now).lockedUntil ==
            if (f + 1) % p.maxAttempts == 0 then Some(now + p.lockout) else a.lockedUntil
  {
    WrappedIsModulo(f, p.maxAttempts);
    WrappedIsModulo(f + 1, p.maxAttempts);
  }

  /** As long as every statement after a failure is carried out, the lock of a user created in the
      run ends one lockout after the end of the failed comparison that reached the limit. */
  lemma {:induction false} LockIsExact(p: Policy, us: seq<Users>, ds: seq<Done>, u: UserId, k: nat)
    requires IsRun(p, us, ds) && k < |us| && ExistsThroughout(us, u) && OwnLocks(ds, u) && us[0][u].account == CLEARED
    requires forall d :: d in ds ==> !MissedOn(d, u)
    ensures us[k][u].account.lockedUntil ==
            match LockingCall(p, ds, u, k) case None => None case Some(i) => Some(ds[i].call.end + p.lockout)
  {
    if k > 0 {
      var d := ds[k - 1];
      LockIsExact(p, us, ds, u, k - 1);
      assert LeadsAt(p, us, ds, k - 1);
      assert d in ds;
      CallOn(p, us[k - 1], d, us[k], u);
      if FailsOn(d, u) {
        InStep(p, us, ds, u, k - 1);
        LocksAtLimit(p, us[k - 1][u].account, FailuresSinceReset(ds, u, k - 1), d.call.stores, d.call.end);
      }
    }
  }

  /** So a login that looks at the lock of such a user is refused exactly when it starts before then. */
  lemma RefusedExactly(p: Policy, us: seq<Users>, ds: seq<Done>, u: UserId, k: nat)
    requires IsRun(p, us, ds) && k < |ds| && ExistsThroughout(us, u) && OwnLocks(ds, u) && us[0][u].account == CLEARED
    requires forall d :: d in ds ==> !MissedOn(d, u)
    requires ds[k].call.Login? && ds[k].checked == Some(u)
    ensures ds[k].compared.None? <==>
            var i := LockingCall(p, ds, u, k); i.Some? && ds[k].call.start < ds[i.value].call.end + p.lockout
  {
    LockIsExact(p, us, ds, u, k);
    assert LeadsAt(p, us, ds, k);
  }

  /** Whatever statements fail, a lock was set by some failed comparison and ends one lockout after it. */
  lemma {:induction false} LocksComeFromFailures(p: Policy, us: seq<Users>, ds: seq<Done>, u: UserId, k: nat)
    returns (i: nat)
    requires IsRun(p, us, ds) && k < |us| && ExistsThroughout(us, u) && OwnLocks(ds, u)
    requires us[0][u].account.lockedUntil.None? && us[k][u].account.lockedUntil.Some?
    ensures i < k && FailsOn(ds[i], u) && us[k][u].account.lockedUntil == Some(ds[i].call.end + p.lockout)
  {
    assert LeadsAt(p, us, ds, k - 1);
    assert ds[k - 1] in ds;
    CallOn(p, us[k - 1], ds[k - 1], us[k], u);
    if us[k][u].account.lockedUntil == us[k - 1][u].account.lockedUntil {
      i := LocksComeFromFailures(p, us, ds, u, k - 1);
    } else {
      i := k - 1;
    }
  }

  /** Once one lockout has passed since the last failed comparison with a user's password, a login
      that looks at the user's own lock goes through to the comparison, whatever statements failed. */
  lemma NoLockOutlastsALockout(p: Policy, us: seq<Users>, ds: seq<Done>, u: UserId, k: nat)
    requires IsRun(p, us, ds) && k < |ds| && ExistsThroughout(us, u) && OwnLocks(ds, u)
    requires us[0][u].account.lockedUntil.None? && ds[k].call.Login? && ds[k].checked == Some(u)
    requires forall i :: 0 <= i < k && FailsOn(ds[i], u) ==> ds[i].call.end + p.lockout <= ds[k].call.start
    ensures ds[k].compared.Some?
  {
    assert LeadsAt(p, us, ds, k);
    if us[k][u].account.lockedUntil.Some? {
      var i := LocksComeFromFailures(p, us, ds, u, k);
    }
  }

  // ----- the bound -----

  /** The failed comparisons among the first `k` calls with an instant in [lo, lo + lockout). */
  function FailuresIn(p: Policy, ds: seq<Done>, u: UserId, k: nat, lo: int): nat
    requires k <= |ds|
  {
    if k == 0 then 0
    else
      var d := ds[k - 1];
      FailuresIn(p, ds, u, k - 1, lo) + if FailsOn(d, u) && lo <= d.call.at < lo + p.lockout then 1 else 0
  }

  /** Those of them with some statement that failed. */
  function MissedIn(p: Policy, ds: seq<Done>, u: UserId, k: nat, lo: int): (m: nat)
    requires k <= |ds|
    ensures m <= FailuresIn(p, ds, u, k, lo)
    ensures (forall d :: d in ds ==> !MissedOn(d, u)) ==> m == 0
  {
    if k == 0 then 0
    else
      var d := ds[k - 1];
      MissedIn(p, ds, u, k - 1, lo) + if MissedOn(d, u) && lo <= d.call.at < lo + p.lockout then 1 else 0
  }

  /** Either every counted failure is still in the counter, or the account is locked to the end
      of the interval. */
  predicate Contained(p: Policy, a: Account, failures: nat, lo: int)
  {
    (failures <= a.failed && failures < p.maxAttempts) ||
    (failures <= p.maxAttempts && a.lockedUntil.Some? && a.lockedUntil.value >= lo + p.lockout)
  }

  lemma ContainedKept(p: Policy, a: Account, failures: nat, lo: int, c: Call)
    requires Contained(p, a, failures, lo)
    requires c.Login? && c.start <= c.at <= c.end && !IsLocked(a, c.start)
    requires c.at < lo ==> failures == 0
    ensures var stored := c.stores.counts && c.stores.loads && c.stores.locks;
            Contained(p, Compared(p, a, false, c.stores, c.end),
                      failures + if stored && lo <= c.at < lo + p.lockout then 1 else 0, lo)
  {
  }

  lemma {:induction false} FailuresAreContained(p: Policy, us: seq<Users>, ds: seq<Done>, u: UserId, k: nat, lo: int)
    requires IsRun(p, us, ds) && Ordered(ds) && k < |us| && ExistsThroughout(us, u) && OwnLocks(ds, u)
    requires forall d :: d in ds ==> !ResetsOn(d, u)
    ensures Contained(p, us[k][u].account, FailuresIn(p, ds, u, k, lo) - MissedIn(p, ds, u, k, lo), lo)
    ensures k > 0 && ds[k - 1].call.at < lo ==> FailuresIn(p, ds, u, k, lo) == 0
  {
    if k > 0 {
      var d := ds[k - 1];
      assert d in ds;
      FailuresAreContained(p, us, ds, u, k - 1, lo);
      if k > 1 {
        assert ds[k - 2].call.at <= End(ds[k - 2].call) <= Begin(d.call) <= d.call.at;
      }
      assert LeadsAt(p, us, ds, k - 1);
      CallOn(p, us[k - 1], d, us[k], u);
      if FailsOn(d, u) {
        var stored := FailuresIn(p, ds, u, k - 1, lo) - MissedIn(p, ds, u, k - 1, lo);
        ContainedKept(p, us[k - 1][u].account, stored, lo, d.call);
      }
    }
  }

  /** The lockout bound: over any run of calls without a success or an unlock of a user, in which
      every login that compares with the user's password has looked at the user's own lock, any
      half-open interval of one lockout's length contains at most maxAttempts failed comparisons
      with that password, and one more for each of them some of whose statements failed. */
  lemma LockoutBound(p: Policy, us: seq<Users>, ds: seq<Done>, u: UserId, lo: int)
    requires IsRun(p, us, ds) && Ordered(ds) && ExistsThroughout(us, u) && OwnLocks(ds, u)
    requires forall d :: d in ds ==> !ResetsOn(d, u)
    ensures FailuresIn(p, ds, u, |ds|, lo) <= p.maxAttempts + MissedIn(p, ds, u, |ds|, lo)
  {
    FailuresAreContained(p, us, ds, u, |ds|, lo);
  }

  // ----- where the bound fails -----

  /** A run of logins all of whose statements are carried out, none of which succeeds for `u`. */
  predicate IsSiege(p: Policy, users: Users, us: seq<Users>, ds: seq<Done>, u: UserId)
  {
    && IsRun(p, us, ds) && us[0] == users && Ordered(ds)
    && (forall d :: d in ds ==> d.call.Login? && d.call.stores == STORED && !ResetsOn(d, u))
  }

  ghost predicate BoundHolds(p: Policy, users: Users, u: UserId)
  {
    forall us, ds, lo :: IsSiege(p, users, us, ds, u) ==> FailuresIn(p, ds, u, |ds|, lo) <= p.maxAttempts
  }

  lemma {:induction false} FailuresOfPrefix(p: Policy, ds: seq<Done>, d: Done, u: UserId, k: nat, lo: int)
    requires k <= |ds|
    ensures FailuresIn(p, ds + [d], u, k, lo) == FailuresIn(p, ds, u, k, lo)
  {
    if k > 0 {
      FailuresOfPrefix(p, ds, d, u, k - 1, lo);
    }
  }

  /** The table after one more login that looks at the lock of `v` and compares with `u`. */
  function Guessed(p: Policy, users: Users, u: UserId): Users
    requires u in users
  {
    users[u := users[u].(account := Compared(p, users[u].account, false, STORED, 0))]
  }

  function Guess(identifier: string, u: UserId, v: UserId): Done
  {
    Done(Login(identifier, {}, 0, 0, 0, STORED), Some(v), Some(u))
  }

  lemma GuessLeads(p: Policy, users: Users, identifier: string, u: UserId, v: UserId)
    requires u in Matching(users, identifier) && v in Matching(users, identifier) && users[v].account.lockedUntil.None?
    ensures Leads(p, users, Guess(identifier, u, v), Guessed(p, users, u))
    ensures Matching(Guessed(p, users, u), identifier) == Matching(users, identifier)
  {
  }

  lemma AppendCall(p: Policy, us: seq<Users>, ds: seq<Done>, d: Done, after: Users)
    requires IsRun(p, us, ds) && Leads(p, us[|ds|], d, after)
    ensures IsRun(p, us + [after], ds + [d])
  {
    forall k: nat | k < |ds| + 1
      ensures LeadsAt(p, us + [after], ds + [d], k)
    {
      if k < |ds| {
        assert LeadsAt(p, us, ds, k);
      }
    }
  }

  /** If another user, who is not locked, goes by the same identifier, its lock can be looked at
      and the password of `u` compared, any number of times at once. */
  lemma {:induction false} AmbiguityLetsThrough(p: Policy, users: Users, identifier: string, u: UserId, v: UserId,
                                                n: nat)
    returns (us: seq<Users>, ds: seq<Done>)
    requires u != v && u in Matching(users, identifier) && v in Matching(users, identifier)
    requires users[v].account.lockedUntil.None?
    ensures IsRun(p, us, ds) && us[0] == users && |ds| == n && FailuresIn(p, ds, u, n, 0) == n
    ensures forall i :: 0 <= i < n ==> ds[i] == Guess(identifier, u, v)
    ensures Matching(us[n], identifier) == Matching(users, identifier) && us[n][v] == users[v]
  {
    if n == 0 {
      us, ds := [users], [];
    } else {
      var us0, ds0 := AmbiguityLetsThrough(p, users, identifier, u, v, n - 1);
      var before, d := us0[n - 1], Guess(identifier, u, v);
      GuessLeads(p, before, identifier, u, v);
      AppendCall(p, us0, ds0, d, Guessed(p, before, u));
      FailuresOfPrefix(p, ds0, d, u, n - 1, 0);
      us, ds := us0 + [Guessed(p, before, u)], ds0 + [d];
    }
  }

  lemma {:induction false} LoginsKeepNames(p: Policy, users: Users, us: seq<Users>, ds: seq<Done>, u: UserId, k: nat)
    requires IsSiege(p, users, us, ds, u) && k < |us|
    ensures us[k].Keys == users.Keys
    ensures forall i :: i in users ==> us[k][i].username == users[i].username && us[k][i].email == users[i].email
  {
    if k > 0 {
      LoginsKeepNames(p, users, us, ds, u, k - 1);
      assert LeadsAt(p, us, ds, k - 1);
      assert ds[k - 1] in ds;
    }
  }

  lemma SoleThroughoutLooksAtOwnLock(p: Policy, us: seq<Users>, ds: seq<Done>, u: UserId)
    requires IsRun(p, us, ds) && forall k :: 0 <= k < |us| ==> Sole(us[k], u)
    ensures OwnLocks(ds, u)
  {
    forall d | d in ds
      ensures LooksAtOwnLock(d, u)
    {
      var k :| 0 <= k < |ds| && ds[k] == d;
      assert LeadsAt(p, us, ds, k);
      SoleUsersLookAtOwnLock(p, us[k], d, us[k + 1], u);
    }
  }

  /** Among accounts that are not locked to begin with, the bound holds for a user whatever
      logins follow if and only if nobody else goes by the user's name or email. */
  lemma BoundHoldsExactly(p: Policy, users: Users, u: UserId)
    requires u in users
    requires forall i :: i in users ==> users[i].account.lockedUntil.None?
    ensures BoundHolds(p, users, u) <==> Sole(users, u)
  {
    if Sole(users, u) {
      forall us, ds, lo | IsSiege(p, users, us, ds, u)
        ensures FailuresIn(p, ds, u, |ds|, lo) <= p.maxAttempts
      {
        forall k | 0 <= k < |us|
          ensures Sole(us[k], u)
        {
          LoginsKeepNames(p, users, us, ds, u, k);
        }
        SoleThroughoutLooksAtOwnLock(p, us, ds, u);
        LockoutBound(p, us, ds, u, lo);
        assert forall d :: d in ds ==> !MissedOn(d, u);
      }
    } else {
      var v :| v in users && v != u && (Matches(users[v], users[u].username) || Matches(users[v], users[u].email));
      var identifier := if Matches(users[v], users[u].username) then users[u].username else users[u].email;
      var us, ds := AmbiguityLetsThrough(p, users, identifier, u, v, p.maxAttempts + 1);
      assert forall d :: d in ds ==> d == Guess(identifier, u, v);
      assert IsSiege(p, users, us, ds, u);
    }
  }
}
