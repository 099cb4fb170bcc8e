/**
 The sign-in lockout of storage.py: failures are counted in a window that tumbles,
 and reaching the limit locks the key. Times are whole seconds.
 */
module Throttles {
  import opened Wrappers

  /** The keys of `account_key`, `ip_key` and `totp_key`: their prefixes keep them apart. */
  datatype Key = Account(name: string) | Address(ip: string) | Code(user: nat)

  datatype Row = Row(failures: nat, windowStart: int, lockedUntil: Option<int>)

  datatype Policy = Policy(limit: nat, windowSeconds: int, lockSeconds: int)

  const ACCOUNT_POLICY := Policy(10, 15 * 60, 15 * 60)
  const ADDRESS_POLICY := Policy(20, 15 * 60, 15 * 60)
  const CODE_POLICY := Policy(5, 15 * 60, 15 * 60)

  /** `throttle_fail` on the row of the key: the new row, and whether it is locked after it. */
  function Fail(policy: Policy, row: Option<Row>, now: int): (Row, bool) {
    var start := if row.None? then Row(0, now, None) else row.value;
    var counted :=
      if now - start.windowStart > policy.windowSeconds then Row(1, now, start.lockedUntil)
      else start.(failures := start.failures + 1);
    if counted.failures >= policy.limit then (Row(0, now, Some(now + policy.lockSeconds)), true)
    else (counted, false)
  }

  /** `throttle_locked_seconds` */
  function LockedSeconds(row: Option<Row>, now: int): (seconds: nat)
    ensures seconds > 0 <==> row.Some? && row.value.lockedUntil.Some? && row.value.lockedUntil.value > now
  {
    if row.None? || row.value.lockedUntil.None? then 0
    else if row.value.lockedUntil.value - now > 0 then row.value.lockedUntil.value - now
    else 0
  }

  class ThrottleTable {
    var rows: map<Key, Row>

    ghost function RowOf(key: Key): Option<Row>
      reads this
    {
      if key in rows then Some(rows[key]) else None
    }

    constructor ()
      ensures rows == map[]
    {
      rows := map[];
    }

    method CountFailure(policy: Policy, key: Key, now: int) returns (locked: bool)
      modifies this
      ensures key in rows && (rows[key], locked) == Fail(policy, old(RowOf(key)), now)
      ensures rows.Keys == old(rows.Keys) + {key}
      ensures forall k | k in old(rows) && k != key :: rows[k] == old(rows)[k]
    {
      if key !in rows {
        rows := rows[key := Row(0, now, None)];
      }
      if now - rows[key].windowStart > policy.windowSeconds {
        rows := rows[key := rows[key].(failures := 0, windowStart := now)];
      }
      rows := rows[key := rows[key].(failures := rows[key].failures + 1)];
      locked := rows[key].failures >= policy.limit;
      if locked {
        rows := rows[key := rows[key].(lockedUntil := Some(now + policy.lockSeconds))];
        rows := rows[key := rows[key].(failures := 0, windowStart := now)];
      }
    }

    method Clear(key: Key)
      modifies this
      ensures rows == old(rows) - {key}
    {
      rows := rows - {key};
    }

    method NotePasswordFailure(account: string, ip: string, now: int)
      modifies this
      ensures rows.Keys == old(rows.Keys) + {Account(account), Address(ip)}
      ensures rows[Account(account)] == Fail(ACCOUNT_POLICY, old(RowOf(Account(account))), now).0
      ensures rows[Address(ip)] == Fail(ADDRESS_POLICY, old(RowOf(Address(ip))), now).0
      ensures forall k | k in old(rows) && k != Account(account) && k != Address(ip) :: rows[k] == old(rows)[k]
    {
      var _ := CountFailure(ACCOUNT_POLICY, Account(account), now);
      var _ := CountFailure(ADDRESS_POLICY, Address(ip), now);
    }

    /** True when the user's codes are locked after it. */
    method NoteTotpFailure(user: nat, ip: string, now: int) returns (locked: bool)
      modifies this
      ensures rows.Keys == old(rows.Keys) + {Code(user), Address(ip)}
      ensures rows[Address(ip)] == Fail(ADDRESS_POLICY, old(RowOf(Address(ip))), now).0
      ensures (rows[Code(user)], locked) == Fail(CODE_POLICY, old(RowOf(Code(user))), now)
      ensures forall k | k in old(rows) && k != Code(user) && k != Address(ip) :: rows[k] == old(rows)[k]
    {
      var _ := CountFailure(ADDRESS_POLICY, Address(ip), now);
      locked := CountFailure(CODE_POLICY, Code(user), now);
    }

    /** The longest lock on any of the keys. */
    method LockedFor(keys: seq<Key>, now: int) returns (seconds: nat)
      ensures forall k | k in keys :: LockedSeconds(RowOf(k), now) <= seconds
      ensures seconds > 0 ==> exists k :: k in keys && LockedSeconds(RowOf(k), now) == seconds
    {
      seconds := 0;
      for n := 0 to |keys|
        invariant forall i | 0 <= i < n :: LockedSeconds(RowOf(keys[i]), now) <= seconds
        invariant seconds > 0 ==> exists i :: 0 <= i < n && LockedSeconds(RowOf(keys[i]), now) == seconds
      {
        var key := keys[n];
        var one := LockedSeconds(if key in rows then Some(rows[key]) else None, now);
        if one > seconds {
          seconds := one;
        }
      }
    }
  }

  // ---------------------------------------------------------------- when a key is locked

  /** The row after the first `n` failures. */
  function After(policy: Policy, times: seq<int>, n: nat): Option<Row>
    requires n <= |times|
  {
    if n == 0 then None else Some(Fail(policy, After(policy, times, n - 1), times[n - 1]).0)
  }

  ghost predicate Unlocked(policy: Policy, times: seq<int>, n: nat)
    requires n < |times|
  {
    LockedSeconds(After(policy, times, n), times[n]) == 0
  }

  ghost predicate Sorted(times: seq<int>) {
    forall i, j | 0 <= i < j < |times| :: times[i] <= times[j]
  }

  /** Failures of one key, in the order they were counted, each at a time when it was not locked. */
  ghost predicate Counted(policy: Policy, times: seq<int>) {
    && Sorted(times)
    && (forall n | 0 <= n < |times| :: Unlocked(policy, times, n))
  }

  lemma {:induction false} FailuresBelowLimit(policy: Policy, times: seq<int>, n: nat)
    requires n <= |times| && policy.limit >= 1
    ensures After(policy, times, n).Some? ==> After(policy, times, n).value.failures < policy.limit
    decreases n
  {
    if n > 0 {
      FailuresBelowLimit(policy, times, n - 1);
    }
  }

  /** The count of the row is of the last failures, and they are in its window. */
  ghost predicate CountsLast(policy: Policy, times: seq<int>, n: nat)
    requires n <= |times|
  {
    var row := After(policy, times, n);
    && (row.None? <==> n == 0)
    && (row.Some? ==>
          && row.value.failures <= n && row.value.windowStart <= times[n - 1]
          && (row.value.failures > 0 ==> InWindow(policy, times, n - row.value.failures, n, row.value.windowStart)))
  }

  ghost predicate InWindow(policy: Policy, times: seq<int>, i: nat, n: nat, start: int)
    requires i <= n <= |times|
  {
    (forall k | i <= k < n :: start <= times[k] <= start + policy.windowSeconds) && NoneLocks(policy, times, i, n)
  }

  lemma {:induction false} RowCountsLast(policy: Policy, times: seq<int>, n: nat)
    requires n <= |times| && policy.limit >= 1 && policy.windowSeconds >= 0 && Sorted(times)
    ensures CountsLast(policy, times, n)
    decreases n
  {
    if n > 0 {
      RowCountsLast(policy, times, n - 1);
      FailureCountsLast(policy, times, n - 1);
    }
  }

  lemma FailureCountsLast(policy: Policy, times: seq<int>, n: nat)
    requires n < |times| && policy.limit >= 1 && policy.windowSeconds >= 0 && Sorted(times)
    requires CountsLast(policy, times, n)
    ensures CountsLast(policy, times, n + 1)
  {
    var row, after := After(policy, times, n), After(policy, times, n + 1).value;
    FailureKeepsWindow(policy, row, times[n]);
    if after.failures > 0 {
      var i := n + 1 - after.failures;
      WindowGrows(policy, times, i, n, after.windowStart);
    }
  }

  /** A failure goes into the window of the row, or into a window of its own. */
  lemma FailureKeepsWindow(policy: Policy, row: Option<Row>, now: int)
    requires policy.limit >= 1 && policy.windowSeconds >= 0 && (row.Some? ==> row.value.windowStart <= now)
    ensures var after := Fail(policy, row, now).0;
      && after.windowStart <= now <= after.windowStart + policy.windowSeconds
      && (after.failures > 1 ==>
            row.Some? && after.failures == row.value.failures + 1 && after.windowStart == row.value.windowStart)
      && (after.failures > 0 ==> !Fail(policy, row, now).1)
  {
  }

  lemma WindowGrows(policy: Policy, times: seq<int>, i: nat, n: nat, start: int)
    requires i <= n < |times| && (i < n ==> InWindow(policy, times, i, n, start))
    requires start <= times[n] <= start + policy.windowSeconds && !Fail(policy, After(policy, times, n), times[n]).1
    ensures InWindow(policy, times, i, n + 1, start)
  {
  }

  /**
   A lock has its reason: a failure locks the key only as the last of `limit` failures within `windowSeconds`,
   none of which locked it before.
   */
  lemma LockHasReason(policy: Policy, times: seq<int>, n: nat)
    requires n < |times| && policy.limit >= 1 && policy.windowSeconds >= 0 && Sorted(times)
    requires Fail(policy, After(policy, times, n), times[n]).1
    ensures n + 1 >= policy.limit && times[n] - times[n + 1 - policy.limit] <= policy.windowSeconds
    ensures NoneLocks(policy, times, n + 1 - policy.limit, n)
  {
    RowCountsLast(policy, times, n);
    FailuresBelowLimit(policy, times, n);
  }

  /** The next failure starts a window: it is the first one, or the window before it is over. */
  ghost predicate StartsWindow(policy: Policy, times: seq<int>, i: nat)
    requires i < |times|
  {
    var row := After(policy, times, i);
    row.None? || times[i] - row.value.windowStart > policy.windowSeconds
  }

  /** A failure more than a window after the one before it starts a window, whatever was counted. */
  lemma PauseStartsWindow(policy: Policy, times: seq<int>, i: nat)
    requires i < |times| && policy.limit >= 1 && policy.windowSeconds >= 0 && Sorted(times)
    requires i > 0 ==> times[i] - times[i - 1] > policy.windowSeconds
    ensures StartsWindow(policy, times, i)
  {
    RowCountsLast(policy, times, i);
  }

  /** From such a failure on, the count is of the failures since. */
  lemma {:induction false} CountsFromStart(policy: Policy, times: seq<int>, i: nat, n: nat)
    requires policy.windowSeconds >= 0 && Sorted(times)
    requires i < n <= |times| && StartsWindow(policy, times, i) && n - i < policy.limit
    requires times[n - 1] - times[i] <= policy.windowSeconds
    ensures NoneLocks(policy, times, i, n)
    ensures var row := After(policy, times, n);
      row.Some? && row.value.failures == n - i && row.value.windowStart == times[i]
    decreases n
  {
    if n == i + 1 {
      StartsCount(policy, After(policy, times, i), times[i]);
    } else {
      assert times[i] <= times[n - 2] <= times[n - 1];
      CountsFromStart(policy, times, i, n - 1);
      CountsOn(policy, After(policy, times, n - 1).value, times[n - 1]);
    }
  }

  lemma StartsCount(policy: Policy, row: Option<Row>, now: int)
    requires row.None? || now - row.value.windowStart > policy.windowSeconds
    requires policy.limit > 1 && policy.windowSeconds >= 0
    ensures var (after, locked) := Fail(policy, row, now);
      !locked && after.failures == 1 && after.windowStart == now
  {
  }

  lemma CountsOn(policy: Policy, row: Row, now: int)
    requires now - row.windowStart <= policy.windowSeconds && row.failures + 1 < policy.limit
    ensures Fail(policy, Some(row), now) == (row.(failures := row.failures + 1), false)
  {
  }

  /** And exactly the failure number `limit` locks, for `lockSeconds`, when it comes before the window is over. */
  lemma LimitLocks(policy: Policy, times: seq<int>, i: nat, last: nat, now: int)
    requires policy.limit >= 1 && policy.windowSeconds >= 0 && Sorted(times)
    requires i + policy.limit - 1 == last < |times|
    requires StartsWindow(policy, times, i) && times[last] - times[i] <= policy.windowSeconds
    ensures NoneLocks(policy, times, i, last) && Fail(policy, After(policy, times, last), times[last]).1
    ensures LockedSeconds(After(policy, times, last + 1), now)
         == if now < times[last] + policy.lockSeconds then times[last] + policy.lockSeconds - now else 0
  {
    if i < last {
      assert times[i] <= times[last - 1] <= times[last];
      CountsFromStart(policy, times, i, last);
    }
    LimitReached(policy, After(policy, times, last), times[last], now);
  }

  lemma LimitReached(policy: Policy, row: Option<Row>, at: int, now: int)
    requires policy.limit != 1 ==>
      row.Some? && row.value.failures + 1 >= policy.limit && at - row.value.windowStart <= policy.windowSeconds
    ensures Fail(policy, row, at).1
    ensures LockedSeconds(Some(Fail(policy, row, at).0), now)
         == if now < at + policy.lockSeconds then at + policy.lockSeconds - now else 0
  {
  }

  // ---------------------------------------------------------------- how many failures fit

  /** A failure that locks is followed by none for the time of the lock. */
  lemma LockKeepsAway(policy: Policy, times: seq<int>, n: nat)
    requires Counted(policy, times) && n + 1 < |times|
    requires Fail(policy, After(policy, times, n), times[n]).1
    ensures times[n + 1] >= times[n] + policy.lockSeconds
  {
    assert Unlocked(policy, times, n + 1);
  }

  function Failures(row: Option<Row>): nat {
    if row.None? then 0 else row.value.failures
  }

  /**
   `count` failures after one at `from`, before which `earlier` were counted: the window
   never tumbled, or it did once, at or after `from`.
   */
  ghost predicate Since(policy: Policy, from: int, earlier: nat, count: nat, row: Option<Row>) {
    || Failures(row) == earlier + count
    || (row.Some? && row.value.windowStart >= from && count <= policy.limit - 1 + Failures(row))
  }

  lemma SinceStep(policy: Policy, from: int, earlier: nat, count: nat, row: Option<Row>, now: int)
    requires Since(policy, from, earlier, count, row) && from <= now < from + policy.windowSeconds
    requires Failures(row) < policy.limit && !Fail(policy, row, now).1
    ensures Since(policy, from, earlier, count + 1, Some(Fail(policy, row, now).0))
  {
  }

  /** Within the period no failure but the last one locks. */
  lemma NotLocked(policy: Policy, times: seq<int>, i: nat, n: nat)
    requires policy.lockSeconds >= policy.windowSeconds && Counted(policy, times)
    requires i <= n && n + 1 < |times| && times[n + 1] - times[i] < policy.windowSeconds
    ensures !Fail(policy, After(policy, times, n), times[n]).1
    ensures times[i] <= times[n] < times[i] + policy.windowSeconds
  {
    assert times[i] <= times[n] <= times[n + 1];
    if Fail(policy, After(policy, times, n), times[n]).1 {
      LockKeepsAway(policy, times, n);
    }
  }

  /** None of the failures from `i` on locks, up to the one before `n`. */
  ghost predicate NoneLocks(policy: Policy, times: seq<int>, i: nat, n: nat)
    requires n <= |times|
  {
    forall k | i <= k < n :: !Fail(policy, After(policy, times, k), times[k]).1
  }

  lemma {:induction false} WithinOnePeriod(policy: Policy, times: seq<int>, i: nat, n: nat, earlier: nat)
    requires policy.limit >= 1 && i <= n < |times| && NoneLocks(policy, times, i, n)
    requires Sorted(times) && times[n] - times[i] < policy.windowSeconds
    requires earlier == Failures(After(policy, times, i))
    ensures Since(policy, times[i], earlier, n - i, After(policy, times, n))
    decreases n
  {
    if n > i {
      WithinOnePeriod(policy, times, i, n - 1, earlier);
      FailuresBelowLimit(policy, times, n - 1);
      assert times[i] <= times[n - 1] <= times[n] || i == n - 1;
      SinceStep(policy, times[i], earlier, n - 1 - i, After(policy, times, n - 1), times[n - 1]);
    }
  }

  /** Up to the first one that locks there are at most `2 * limit - 1` failures in a period. */
  lemma UpToTheLock(policy: Policy, times: seq<int>, i: nat, n: nat)
    requires policy.limit >= 1 && i <= n < |times| && NoneLocks(policy, times, i, n)
    requires Sorted(times) && times[n] - times[i] < policy.windowSeconds
    ensures n - i + 1 <= 2 * policy.limit - 1
  {
    WithinOnePeriod(policy, times, i, n, Failures(After(policy, times, i)));
    FailuresBelowLimit(policy, times, n);
  }

  /**
   Although the window tumbles, any half-open period of `windowSeconds` holds at most
   `2 * limit - 1` failures, when each is counted at a time at which the key is not locked.
   */
  lemma LockoutBound(policy: Policy, times: seq<int>, i: nat, j: nat)
    requires policy.limit >= 1 && policy.lockSeconds >= policy.windowSeconds && Counted(policy, times)
    requires i <= j < |times| && times[j] - times[i] < policy.windowSeconds
    ensures j - i + 1 <= 2 * policy.limit - 1
  {
    forall k | i <= k < j ensures !Fail(policy, After(policy, times, k), times[k]).1 {
      NotLocked(policy, times, i, k);
    }
    UpToTheLock(policy, times, i, j);
  }

  // ---------------------------------------------------------------- attempts between the look and the count

  /** When an attempt looked at the lock, and how many failures had been counted then. */
  datatype Look = Look(at: int, seen: nat)

  /** The attempts that have looked when the failure `n` is counted, and are not counted before it. */
  ghost function InFlight(looks: seq<Look>, n: nat): set<nat> {
    set m: nat | n <= m < |looks| && looks[m].seen <= n
  }

  /** The sign-in looks at the lock first and counts later: no more than `c` attempts at a time are in between. */
  ghost predicate Attempted(policy: Policy, times: seq<int>, looks: seq<Look>, c: nat) {
    && |looks| == |times|
    && Sorted(times)
    && (forall n | 0 <= n < |times| ::
          && looks[n].seen <= n && looks[n].at <= times[n]
          && LockedSeconds(After(policy, times, looks[n].seen), looks[n].at) == 0)
    && (forall n | 0 <= n < |times| :: |InFlight(looks, n)| <= c)
  }

  /** Failures that are counted while the key is locked do not shorten the lock. */
  lemma {:induction false} LockPersists(policy: Policy, times: seq<int>, n: nat, k: nat)
    requires n < k <= |times| && Fail(policy, After(policy, times, n), times[n]).1
    requires Sorted(times)
    ensures var row := After(policy, times, k);
      row.Some? && row.value.lockedUntil.Some? && row.value.lockedUntil.value >= times[n] + policy.lockSeconds
    decreases k
  {
    if k > n + 1 {
      LockPersists(policy, times, n, k - 1);
    }
  }

  /** The numbers from `n` up to the one before `m`. */
  ghost function Range(n: nat, m: nat): (r: set<nat>)
    requires n <= m
    ensures |r| == m - n && forall k :: k in r <==> n <= k < m
    decreases m
  {
    if n == m then {} else Range(n, m - 1) + {m - 1}
  }

  /** As long as the lock holds, an attempt that is counted had looked before the lock came. */
  lemma LookedBefore(policy: Policy, times: seq<int>, looks: seq<Look>, c: nat, n: nat, m: nat)
    requires Attempted(policy, times, looks, c) && n < m < |times| && times[m] - times[n] < policy.lockSeconds
    requires Fail(policy, After(policy, times, n), times[n]).1
    ensures looks[m].seen <= n
  {
    var seen := looks[m].seen;
    if seen > n {
      LockPersists(policy, times, n, seen);
    }
  }

  /** So only attempts that were in flight then are counted. */
  lemma AfterTheLock(policy: Policy, times: seq<int>, looks: seq<Look>, c: nat, n: nat, j: nat)
    requires Attempted(policy, times, looks, c) && n <= j < |times| && times[j] - times[n] < policy.lockSeconds
    requires n < j ==> Fail(policy, After(policy, times, n), times[n]).1
    ensures j - n + 1 <= c
  {
    var range := Range(n, j + 1);
    forall m | m in range ensures m in InFlight(looks, n) {
      if m > n {
        assert times[m] <= times[j];
        LookedBefore(policy, times, looks, c, n, m);
      }
    }
    SubsetSize(range, InFlight(looks, n));
  }

  lemma {:induction false} FirstLock(policy: Policy, times: seq<int>, i: nat, j: nat) returns (n: nat)
    requires i <= j < |times|
    ensures i <= n <= j && NoneLocks(policy, times, i, n)
    ensures n < j ==> Fail(policy, After(policy, times, n), times[n]).1
    decreases j - i
  {
    if i == j || Fail(policy, After(policy, times, i), times[i]).1 {
      n := i;
    } else {
      n := FirstLock(policy, times, i + 1, j);
    }
  }

  /**
   With `c` attempts at a time between the look at the lock and the count, a half-open period of
   `windowSeconds` holds at most `2 * limit - 1 + (c - 1)` failures.
   */
  lemma LockoutInFlight(policy: Policy, times: seq<int>, looks: seq<Look>, c: nat, i: nat, j: nat)
    requires policy.limit >= 1 && policy.lockSeconds >= policy.windowSeconds && Attempted(policy, times, looks, c)
    requires i <= j < |times| && times[j] - times[i] < policy.windowSeconds
    ensures j - i + 1 <= 2 * policy.limit - 1 + (c - 1)
  {
    var n := FirstLock(policy, times, i, j);
    assert times[i] <= times[n] <= times[j] || n == i || n == j;
    UpToTheLock(policy, times, i, n);
    AfterTheLock(policy, times, looks, c, n, j);
  }

  /** Failures that lock the key, almost as many again when the lock is over, and more when the window has tumbled. */
  function TightTimes(limit: nat, window: nat): seq<int>
    requires limit >= 1
  {
    seq(3 * limit - 1, k => if k < limit then 0 else if k < 2 * limit - 1 then window else window + 1)
  }

  lemma {:induction false} TightRows(limit: nat, window: nat, n: nat)
    requires limit >= 1 && window >= 1 && n <= 3 * limit - 1
    ensures var row := After(Policy(limit, window, window), TightTimes(limit, window), n);
      row == if n == 0 then None
             else if n < limit then Some(Row(n, 0, None))
             else if n < 2 * limit then Some(Row(n - limit, 0, Some(window)))
             else if n < 3 * limit - 1 then Some(Row(n - (2 * limit - 1), window + 1, Some(window)))
             else Some(Row(0, window + 1, Some(2 * window + 1)))
    decreases n
  {
    if n > 0 {
      TightRows(limit, window, n - 1);
    }
  }

  /** The bound is met for every limit: a run in which one window holds `2 * limit - 1` failures. */
  lemma LockoutBoundIsMet(limit: nat, window: nat)
    requires limit >= 1 && window >= 2
    ensures var policy, times := Policy(limit, window, window), TightTimes(limit, window);
      && Counted(policy, times)
      && times[3 * limit - 2] - times[limit] < policy.windowSeconds
      && (3 * limit - 2) - limit + 1 == 2 * limit - 1
  {
    var policy, times := Policy(limit, window, window), TightTimes(limit, window);
    forall n | 0 <= n < |times| ensures Unlocked(policy, times, n) {
      TightRows(limit, window, n);
    }
  }
}
