/**
 * The login limiter: a per-username record of failed logins that locks a
 * username for `lockDuration` once `maxAttempts` failures have been recorded.
 * Instants are nanoseconds counted from Go's zero time (January 1, year 1 UTC),
 * so the zero `LockUntil` of a fresh record is 0 and every clock reading `now`
 * is a natural number.  Durations are nanoseconds, as Go's time.Duration.
 */
module LoginLimiting {
  import opened Clock

  /** LoginAttemptInfo. */
  datatype Attempt = Attempt(count: int, lastTry: int, lockUntil: int)

  /** int(d.Minutes()): the float64 minute count truncated toward zero. */
  function WholeMinutes(d: int): (m: int)
    ensures d >= 0 ==> m == d / NanosPerMinute
    ensures d < 0 ==> m == -((-d) / NanosPerMinute)
  {
    if d >= 0 then d / NanosPerMinute else -((-d) / NanosPerMinute)
  }

  /** The cleanup rule: the lock is over and the last try is more than a day old. */
  predicate Stale(a: Attempt, now: nat)
  {
    now > a.lockUntil && now - a.lastTry > 24 * NanosPerHour
  }

  /**
   * The record of `username` after one more failure at `now`: the count grows
   * by one, the last try is `now`, and reaching `maxAttempts` locks the
   * username until `now + lockDuration`.
   */
  function AfterFailure(attempts: map<string, Attempt>, username: string, now: nat,
                        maxAttempts: int, lockDuration: int): (after: map<string, Attempt>)
    ensures username in after && after - {username} == attempts - {username}
  {
    var before := if username in attempts then attempts[username] else Attempt(0, now, 0);
    var count := before.count + 1;
    attempts[username := Attempt(count, now, if count >= maxAttempts then now + lockDuration else before.lockUntil)]
  }

  /** The records after a run of failures of `username` at the instants `times`, in order. */
  function AfterFailures(attempts: map<string, Attempt>, username: string, times: seq<nat>,
                         maxAttempts: int, lockDuration: int): map<string, Attempt>
    decreases |times|
  {
    if times == [] then attempts
    else AfterFailure(AfterFailures(attempts, username, times[..|times| - 1], maxAttempts, lockDuration),
                      username, times[|times| - 1], maxAttempts, lockDuration)
  }

  /**
   * A username without a record that fails `k` times has a count of `k`, and
   * from the `maxAttempts`-th failure on it is locked until `lockDuration`
   * after the latest one; no other username's record changes.
   */
  lemma {:induction false} FailuresLock(attempts: map<string, Attempt>, username: string, times: seq<nat>,
                                        maxAttempts: int, lockDuration: int)
    requires username !in attempts && times != []
    ensures var after := AfterFailures(attempts, username, times, maxAttempts, lockDuration);
            username in after && after[username].count == |times| &&
            after[username].lastTry == times[|times| - 1] &&
            (|times| >= maxAttempts ==> after[username].lockUntil == times[|times| - 1] + lockDuration) &&
            (|times| < maxAttempts ==> after[username].lockUntil == 0) &&
            after - {username} == attempts - {username}
    decreases |times|
  {
    var prefix := times[..|times| - 1];
    if prefix != [] {
      FailuresLock(attempts, username, prefix, maxAttempts, lockDuration);
    } else {
      assert AfterFailures(attempts, username, prefix, maxAttempts, lockDuration) == attempts;
    }
  }

  class LoginLimiter {
    var attempts: map<string, Attempt>
    const maxAttempts: int
    const lockDuration: int

    /** NewLoginLimiter (the periodic cleanup goroutine is not modelled). */
    constructor (maxAttempts: int, lockDuration: int)
      ensures attempts == map[]
      ensures this.maxAttempts == maxAttempts && this.lockDuration == lockDuration
    {
      this.maxAttempts := maxAttempts;
      this.lockDuration := lockDuration;
      attempts := map[];
    }

    /** DefaultLoginLimiter: 5 attempts, 15-minute lock. */
    static method Default() returns (l: LoginLimiter)
      ensures fresh(l) && l.attempts == map[]
      ensures l.maxAttempts == 5 && l.lockDuration == 15 * NanosPerMinute
    {
      l := new LoginLimiter(5, 15 * NanosPerMinute);
    }

    /** RecordFailedLogin: returns whether the username is now locked, and for how many minutes. */
    method RecordFailedLogin(username: string, now: nat) returns (locked: bool, minutes: int)
      modifies this
      ensures username in attempts
      ensures var before := if username in old(attempts) then old(attempts)[username]
                            else Attempt(0, now, 0);
              attempts[username].count == before.count + 1 &&
              attempts[username].lastTry == now &&
              locked == (attempts[username].count >= maxAttempts) &&
              attempts[username].lockUntil == (if locked then now + lockDuration else before.lockUntil) &&
              minutes == (if locked then WholeMinutes(lockDuration) else 0)
      ensures attempts == AfterFailure(old(attempts), username, now, maxAttempts, lockDuration)
    {
      var attempt := if username in attempts then attempts[username] else Attempt(0, now, 0);
      attempt := attempt.(count := attempt.count + 1, lastTry := now);
      if attempt.count >= maxAttempts {
        attempt := attempt.(lockUntil := now + lockDuration);
        attempts := attempts[username := attempt];
        locked, minutes := true, WholeMinutes(lockDuration);
      } else {
        attempts := attempts[username := attempt];
        locked, minutes := false, 0;
      }
    }

    /** IsLocked: locked exactly while `now` is before LockUntil; minutes left, rounded up by one. */
    method IsLocked(username: string, now: nat) returns (locked: bool, minutes: int)
      ensures locked <==> username in attempts && now < attempts[username].lockUntil
      ensures locked ==> minutes == (attempts[username].lockUntil - now) / NanosPerMinute + 1 && minutes >= 1
      ensures !locked ==> minutes == 0
    {
      if username !in attempts {
        return false, 0;
      }
      var attempt := attempts[username];
      if now < attempt.lockUntil {
        return true, WholeMinutes(attempt.lockUntil - now) + 1;
      }
      return false, 0;
    }

    /** ResetAttempts: forgets the username. */
    method ResetAttempts(username: string)
      modifies this
      ensures username !in attempts
      ensures attempts == old(attempts) - {username}
    {
      attempts := attempts - {username};
    }

    /** GetRemainingAttempts: max(0, maxAttempts - Count), or maxAttempts for an unknown username. */
    method GetRemainingAttempts(username: string) returns (remaining: int)
      ensures username !in attempts ==> remaining == maxAttempts
      ensures username in attempts ==>
                remaining == if maxAttempts - attempts[username].count < 0 then 0
                             else maxAttempts - attempts[username].count
    {
      if username !in attempts {
        return maxAttempts;
      }
      remaining := maxAttempts - attempts[username].count;
      if remaining < 0 {
        remaining := 0;
      }
    }

    /** cleanup: deletes exactly the stale records. */
    method Cleanup(now: nat)
      modifies this
      ensures attempts == map u | u in old(attempts) && !Stale(old(attempts)[u], now) :: old(attempts)[u]
    {
      ghost var original := attempts;
      var pending := attempts.Keys;
      while pending != {}
        invariant pending <= original.Keys
        invariant attempts == map u | u in original && (u in pending || !Stale(original[u], now)) :: original[u]
        decreases pending
      {
        var u :| u in pending;
        if Stale(attempts[u], now) {
          attempts := attempts - {u};
        }
        pending := pending - {u};
      }
    }
  }
}
