/** Login throttling with two expiring keys per e-mail address: a failure counter and a lock. */
module LoginLockout {
  import opened Types

  /** 15 minutes. */
  const WINDOW: Time := 15 * 60

  /** The counter key; None as expiry is a key that never expires. */
  datatype Counter = Counter(count: int, expiry: Option<Time>)

  datatype Keys = Keys(attempts: Option<Counter>, lock: Option<Time>)

  /** One call of Login: the lock is looked up at start, the outcome is recorded at at. */
  datatype Attempt = Attempt(start: Time, at: Time, good: bool)

  datatype Outcome = Locked | Failed | LoggedIn

  predicate CounterLive(s: Keys, now: Time) {
    s.attempts.Some? && (s.attempts.value.expiry.Some? ==> now < s.attempts.value.expiry.value)
  }

  predicate LockLive(s: Keys, now: Time) {
    s.lock.Some? && now < s.lock.value
  }

  function Recorded(s: Keys, now: Time): Keys {
    var count := if CounterLive(s, now) then s.attempts.value.count + 1 else 1;
    var expiry := if count == 1 then Some(now + WINDOW) else s.attempts.value.expiry;
    Keys(Some(Counter(count, expiry)), if count >= 5 then Some(now + WINDOW) else s.lock)
  }

  function OutcomeOf(s: Keys, l: Attempt): Outcome {
    if LockLive(s, l.start) then Locked else if l.good then LoggedIn else Failed
  }

  function After(s: Keys, l: Attempt): Keys {
    match OutcomeOf(s, l)
    case Locked => s
    case Failed => Recorded(s, l.at)
    case LoggedIn => s.(attempts := None)
  }

  // ----- the two keys, changed in place

  class Redis {
    var attempts: Option<Counter>
    var lock: Option<Time>

    ghost function View(): Keys
      reads this
    {
      Keys(attempts, lock)
    }

    method CheckLoginLockout(now: Time) returns (locked: bool)
      ensures locked <==> LockLive(View(), now)
    {
      locked := lock.Some? && now < lock.value;
    }

    /** INCR keeps the expiry of a live key and creates a key without one; EXPIRE only follows
        the first failure. */
    method RecordLoginFailure(now: Time)
      modifies this
      ensures View() == Recorded(old(View()), now)
      ensures attempts.Some? && (attempts.value.count >= 5 ==> lock == Some(now + 900))
      ensures attempts.value.count < 5 ==> lock == old(lock)
      ensures attempts.value.count == 1 ==> attempts.value.expiry == Some(now + 900)
      ensures attempts.value.count != 1 ==>
        old(attempts).Some? && attempts.value == Counter(old(attempts).value.count + 1, old(attempts).value.expiry)
    {
      var count := 1;
      if attempts.Some? && (attempts.value.expiry.Some? ==> now < attempts.value.expiry.value) {
        count := attempts.value.count + 1;
        attempts := Some(attempts.value.(count := count));
      } else {
        attempts := Some(Counter(1, None));
      }
      if count == 1 {
        attempts := Some(attempts.value.(expiry := Some(now + WINDOW)));
      }
      if count >= 5 {
        lock := Some(now + WINDOW);
      }
    }

    method RecordLoginSuccess()
      modifies this
      ensures View() == old(View()).(attempts := None)
    {
      attempts := None;
    }

    method Login(start: Time, at: Time, good: bool) returns (r: Outcome)
      modifies this
      ensures r == OutcomeOf(old(View()), Attempt(start, at, good))
      ensures View() == After(old(View()), Attempt(start, at, good))
      ensures r == Locked <==> old(lock).Some? && start < old(lock).value
      ensures r != Locked ==> (r == LoggedIn <==> good) && (r == Failed <==> !good)
      ensures r == Locked ==> View() == old(View())
      ensures r == LoggedIn ==> attempts.None? && lock == old(lock)
    {
      var locked := CheckLoginLockout(start);
      if locked {
        return Locked;
      }
      if !good {
        RecordLoginFailure(at);
        return Failed;
      }
      RecordLoginSuccess();
      return LoggedIn;
    }
  }

  // ----- runs, one login at a time

  predicate Sequential(ls: seq<Attempt>) {
    && (forall k :: 0 <= k < |ls| ==> ls[k].start <= ls[k].at)
    && (forall j, k :: 0 <= j < k < |ls| ==> ls[j].at <= ls[k].start)
  }

  function StateAfter(ls: seq<Attempt>, n: nat): Keys
    requires n <= |ls|
  {
    if n == 0 then Keys(None, None) else After(StateAfter(ls, n - 1), ls[n - 1])
  }

  function Result(ls: seq<Attempt>, k: nat): Outcome
    requires k < |ls|
  {
    OutcomeOf(StateAfter(ls, k), ls[k])
  }

  /** Failed password verifications among the logins lo, ..., hi - 1. */
  function Failures(ls: seq<Attempt>, lo: nat, hi: nat): nat
    requires lo <= hi <= |ls|
  {
    if lo == hi then 0 else Failures(ls, lo, hi - 1) + if Result(ls, hi - 1) == Failed then 1 else 0
  }

  /** What holds of the keys once everything up to now is recorded: a full counter is behind a lock
      that outlives it, and a counter either dies with the lock or started after it. */
  predicate Consistent(s: Keys, now: Time) {
    && (s.attempts.Some? ==>
          var c := s.attempts.value;
          && 1 <= c.count <= 5 && c.expiry.Some? && c.expiry.value <= now + WINDOW
          && (c.count == 5 ==> s.lock.Some? && c.expiry.value <= s.lock.value)
          && (s.lock.Some? ==> c.expiry.value <= s.lock.value || s.lock.value + WINDOW <= c.expiry.value))
    && (s.lock.Some? ==> s.lock.value <= now + WINDOW)
  }

  lemma ConsistentStep(s: Keys, l: Attempt, now: Time)
    requires Consistent(s, now) && now <= l.start <= l.at
    ensures Consistent(After(s, l), l.at)
  {
  }

  lemma {:induction false} AlwaysConsistent(ls: seq<Attempt>, n: nat, now: Time)
    requires Sequential(ls) && n <= |ls| && (n > 0 ==> ls[n - 1].at <= now)
    ensures Consistent(StateAfter(ls, n), now)
  {
    if n > 0 {
      AlwaysConsistent(ls, n - 1, ls[n - 1].start);
      ConsistentStep(StateAfter(ls, n - 1), ls[n - 1], ls[n - 1].start);
    }
  }

  // ----- at most eight failures in fifteen minutes

  /** How many more failures can be recorded before end, when the window started WINDOW earlier. */
  function Left(s: Keys, now: Time, end: Time): int {
    if LockLive(s, now) then (if s.lock.value >= end then 0 else 5)
    else if CounterLive(s, now) && s.attempts.value.expiry.Some? then
      (if s.attempts.value.expiry.value >= end then 5 else 9) - s.attempts.value.count
    else 5
  }

  lemma LeftStep(s: Keys, l: Attempt, now: Time, end: Time)
    requires Consistent(s, now) && now <= l.start <= l.at && end - WINDOW <= l.at < end
    requires OutcomeOf(s, l) != LoggedIn
    ensures 0 <= Left(After(s, l), l.at, end)
    ensures Left(After(s, l), l.at, end) + (if OutcomeOf(s, l) == Failed then 1 else 0) <= Left(s, now, end) <= 8
  {
  }

  lemma LeftAfter(ls: seq<Attempt>, k: nat, now: Time, end: Time)
    requires Sequential(ls) && k < |ls| && (k > 0 ==> ls[k - 1].at <= now) && now <= ls[k].start
    requires end - WINDOW <= ls[k].at < end && Result(ls, k) != LoggedIn
    ensures var left := Left(StateAfter(ls, k + 1), ls[k].at, end);
      0 <= left && left + (if Result(ls, k) == Failed then 1 else 0) <= Left(StateAfter(ls, k), now, end) <= 8
  {
    AlwaysConsistent(ls, k, now);
    LeftStep(StateAfter(ls, k), ls[k], now, end);
  }

  lemma {:induction false} FailuresPlusLeft(ls: seq<Attempt>, lo: nat, hi: nat, from: Time)
    requires Sequential(ls) && lo < hi <= |ls|
    requires forall k :: lo <= k < hi ==> from <= ls[k].at < from + WINDOW && Result(ls, k) != LoggedIn
    ensures Failures(ls, lo, hi) + Left(StateAfter(ls, hi), ls[hi - 1].at, from + WINDOW) <= 8
    ensures 0 <= Left(StateAfter(ls, hi), ls[hi - 1].at, from + WINDOW)
  {
    if lo == hi - 1 {
      LeftAfter(ls, lo, ls[lo].start, from + WINDOW);
      assert Failures(ls, lo, lo) == 0;
    } else {
      FailuresPlusLeft(ls, lo, hi - 1, from);
      LeftAfter(ls, hi - 1, ls[hi - 2].at, from + WINDOW);
    }
  }

  /** Any half-open window of fifteen minutes without a successful login contains at most eight failed
      password verifications, wherever it starts. */
  lemma AtMostEightFailures(ls: seq<Attempt>, lo: nat, hi: nat, from: Time)
    requires Sequential(ls) && lo <= hi <= |ls|
    requires forall k :: lo <= k < hi ==> from <= ls[k].at < from + WINDOW && Result(ls, k) != LoggedIn
    ensures Failures(ls, lo, hi) <= 8
  {
    if lo < hi {
      FailuresPlusLeft(ls, lo, hi, from);
    }
  }

  /** One failure, three more just before its counter expires after 900 seconds, and five as it does. */
  function FailureAt(k: nat): Time {
    if k == 0 then 0 else if k <= 3 then 896 + k else 900
  }

  predicate EightInAWindow(ls: seq<Attempt>) {
    |ls| == 9 && forall k :: 0 <= k < 9 ==> ls[k] == Attempt(FailureAt(k), FailureAt(k), false)
  }

  /** Eight is reached: this is such a run, and all of it but its first login lies in one window. */
  lemma EightIsReached(ls: seq<Attempt>)
    requires EightInAWindow(ls)
    ensures Sequential(ls)
    ensures forall k :: 1 <= k < 9 ==> 1 <= ls[k].at < 1 + WINDOW
    ensures Failures(ls, 1, 9) == 8
  {
    assert ls[0] == Attempt(0, 0, false) && StateAfter(ls, 0) == Keys(None, None);
    assert StateAfter(ls, 1) == Recorded(Keys(None, None), 0);
    assert Failures(ls, 1, 1) == 0;
    OneMore(ls, 1, 1, Counter(1, Some(900)));
    OneMore(ls, 1, 2, Counter(2, Some(900)));
    OneMore(ls, 1, 3, Counter(3, Some(900)));
    OneMore(ls, 1, 4, Counter(4, Some(900)));
    OneMore(ls, 1, 5, Counter(1, Some(1800)));
    OneMore(ls, 1, 6, Counter(2, Some(1800)));
    OneMore(ls, 1, 7, Counter(3, Some(1800)));
    OneMore(ls, 1, 8, Counter(4, Some(1800)));
  }

  lemma OneMore(ls: seq<Attempt>, lo: nat, k: nat, c: Counter)
    requires lo <= k < |ls| && StateAfter(ls, k) == Keys(Some(c), None) && !ls[k].good
    ensures Result(ls, k) == Failed && Failures(ls, lo, k + 1) == Failures(ls, lo, k) + 1
    ensures StateAfter(ls, k + 1) == Recorded(Keys(Some(c), None), ls[k].at)
  {
  }

  // ----- the lock

  /** Login k was the failure that locked the account. */
  predicate Locks(ls: seq<Attempt>, k: nat)
    requires k < |ls|
  {
    Result(ls, k) == Failed && StateAfter(ls, k + 1).attempts.value.count >= 5
  }

  /** Nobody's password is verified for fifteen minutes after the failure that locked the account. */
  lemma {:induction false} LockHolds(ls: seq<Attempt>, k: nat, m: nat)
    requires Sequential(ls) && k < m < |ls| && Locks(ls, k) && ls[m].start < ls[k].at + WINDOW
    ensures StateAfter(ls, m) == StateAfter(ls, k + 1)
    ensures Result(ls, m) == Locked
  {
    if m > k + 1 {
      LockHolds(ls, k, m - 1);
    }
  }

  /** The step that last locked the account among the first n, or -1. */
  function LastLock(ls: seq<Attempt>, n: nat): (m: int)
    requires n <= |ls|
    ensures -1 <= m < n
    ensures m >= 0 ==> Locks(ls, m)
  {
    if n == 0 then -1 else if Locks(ls, n - 1) then n - 1 else LastLock(ls, n - 1)
  }

  lemma {:induction false} LockIsLast(ls: seq<Attempt>, n: nat)
    requires n <= |ls|
    ensures StateAfter(ls, n).lock == if LastLock(ls, n) >= 0 then Some(ls[LastLock(ls, n)].at + 900) else None
  {
    if n > 0 {
      LockIsLast(ls, n - 1);
    }
  }

  /** A login is refused unverified exactly within fifteen minutes of the last failure that locked the
      account. Otherwise the password alone decides. */
  lemma OutcomeExactly(ls: seq<Attempt>, k: nat)
    requires k < |ls|
    ensures Result(ls, k) == Locked <==> LastLock(ls, k) >= 0 && ls[k].start < ls[LastLock(ls, k)].at + 900
    ensures Result(ls, k) != Locked ==> (Result(ls, k) == LoggedIn <==> ls[k].good)
    ensures Result(ls, k) == Failed ==> !ls[k].good
  {
    LockIsLast(ls, k);
  }

  /** When the lock expires its counter has expired: the next failure counts as the first. */
  lemma FreshStartAfterLock(ls: seq<Attempt>, k: nat, m: nat)
    requires Sequential(ls) && k < m < |ls| && Locks(ls, k) && Result(ls, m) == Failed
    requires forall j :: k < j < m ==> Result(ls, j) == Locked
    ensures ls[m].start >= ls[k].at + WINDOW
    ensures StateAfter(ls, m + 1).attempts.value.count == 1
  {
    AlwaysConsistent(ls, k + 1, ls[k].at);
    if ls[m].start < ls[k].at + WINDOW {
      LockHolds(ls, k, m);
    }
    SameWhileLocked(ls, k + 1, m);
  }

  lemma {:induction false} SameWhileLocked(ls: seq<Attempt>, lo: nat, hi: nat)
    requires lo <= hi <= |ls| && forall j :: lo <= j < hi ==> Result(ls, j) == Locked
    ensures StateAfter(ls, hi) == StateAfter(ls, lo)
  {
    if lo < hi {
      SameWhileLocked(ls, lo, hi - 1);
      assert Result(ls, hi - 1) == Locked;
    }
  }

  /** The failures the counter stands for: the last count failures, all younger than its expiry. */
  lemma {:induction false} CounterCounts(ls: seq<Attempt>, n: nat) returns (lo: nat)
    requires Sequential(ls) && n <= |ls| && StateAfter(ls, n).attempts.Some?
    ensures lo < n && Failures(ls, lo, n) == StateAfter(ls, n).attempts.value.count
    ensures forall k :: lo <= k < n ==> Result(ls, k) != LoggedIn
    ensures StateAfter(ls, n).attempts.value.expiry == Some(ls[lo].at + WINDOW)
  {
    var s, l := StateAfter(ls, n - 1), ls[n - 1];
    AlwaysConsistent(ls, n - 1, l.start);
    if OutcomeOf(s, l) == Failed && !CounterLive(s, l.at) {
      lo := n - 1;
      assert Failures(ls, lo, lo) == 0;
    } else {
      lo := CounterCounts(ls, n - 1);
    }
  }

  /** An account is only locked by the fifth of five failures less than fifteen minutes apart, with
      no success in between. */
  lemma LockedByFiveFailures(ls: seq<Attempt>, k: nat) returns (lo: nat)
    requires Sequential(ls) && k < |ls| && Locks(ls, k)
    ensures lo <= k && Failures(ls, lo, k + 1) == 5 && ls[k].at < ls[lo].at + WINDOW
    ensures forall j :: lo <= j <= k ==> Result(ls, j) != LoggedIn
  {
    AlwaysConsistent(ls, k, ls[k].start);
    AlwaysConsistent(ls, k + 1, ls[k].at);
    lo := CounterCounts(ls, k + 1);
  }
}
