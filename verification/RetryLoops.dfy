/**
 The retry loops around `sqlite3_step` and `sqlite3_prepare_v3` (src/raw_statement.rs,
 src/inner_connection.rs) and the lock test they share (src/unlock_notify.rs).

 SQLite answers the `i`-th attempt with a result code and an extended code, and the wait after it with
 another code, all arbitrary. Both loops are proved to stop at the first attempt that either is not a
 shared-cache lock or is one whose wait is refused.
 */
module RetryLoops {
  const SQLITE_OK: int := 0
  const SQLITE_LOCKED: int := 6
  const SQLITE_LOCKED_SHAREDCACHE: int := 262

  datatype Attempt = Attempt(rc: int, extended: int, wait: int)

  /** `rc & 0xff` of a two's complement integer. */
  function LowByte(rc: int): int {
    rc % 256
  }

  predicate IsLocked(a: Attempt) {
    a.rc == SQLITE_LOCKED_SHAREDCACHE || (LowByte(a.rc) == SQLITE_LOCKED && a.extended == SQLITE_LOCKED_SHAREDCACHE)
  }

  /** Every shared-cache lock is some kind of lock, so leaving early on other codes misses none; and a lock
      is a shared-cache one exactly if one of the two codes says so. */
  lemma EarlyExitIsSound(a: Attempt)
    ensures LowByte(a.rc) != 6 ==> !IsLocked(a) && !Retries(a)
    ensures LowByte(a.rc) == 6 ==> (IsLocked(a) <==> a.rc == 262 || a.extended == 262)
    ensures Retries(a) ==> a.wait == 0
  {
    assert LowByte(SQLITE_LOCKED_SHAREDCACHE) == SQLITE_LOCKED;
  }

  predicate Retries(a: Attempt) {
    IsLocked(a) && a.wait == SQLITE_OK
  }

  /** The first attempt at or after `from` that is not retried; one is known to come by `last`. */
  function FirstStop(attempts: nat -> Attempt, from: nat, last: nat): (stop: nat)
    requires from <= last && !Retries(attempts(last))
    ensures from <= stop <= last && !Retries(attempts(stop))
    ensures forall i: nat :: from <= i < stop ==> Retries(attempts(i))
    decreases last - from
  {
    if Retries(attempts(from)) then FirstStop(attempts, from + 1, last) else from
  }

  datatype Event = Called | Waited(rc: int) | Reset

  /** `n` retries, each after one successful wait, and after one reset if `resets`. */
  function RetryLog(n: nat, resets: bool): seq<Event> {
    if n == 0 then []
    else RetryLog(n - 1, resets) + [Called, Waited(SQLITE_OK)] + (if resets then [Reset] else [])
  }

  function LastLog(a: Attempt): seq<Event> {
    [Called] + (if IsLocked(a) then [Waited(a.wait)] else [])
  }

  /** So the log of `n` retries is a call, a successful wait and, for a step, a reset, `n` times over. */
  lemma {:induction false} RetryLogAt(n: nat, k: nat)
    requires k < n
    ensures |RetryLog(n, true)| == 3 * n && |RetryLog(n, false)| == 2 * n
    ensures var log := RetryLog(n, true);
            log[3 * k] == Called && log[3 * k + 1] == Waited(0) && log[3 * k + 2] == Reset
    ensures var log := RetryLog(n, false);
            log[2 * k] == Called && log[2 * k + 1] == Waited(0)
    decreases n
  {
    if n > 1 {
      RetryLogAt(n - 1, if k < n - 1 then k else 0);
    }
    assert n == 1 ==> RetryLog(n - 1, true) == [] && RetryLog(n - 1, false) == [];
  }

  class Sqlite {
    const attempts: nat -> Attempt
    /** The attempt the next call is. */
    var now: nat
    var log: seq<Event>

    constructor (attempts: nat -> Attempt)
      ensures this.attempts == attempts && now == 0 && log == []
    {
      this.attempts := attempts;
      now, log := 0, [];
    }

    /** `sqlite3_step` or `sqlite3_prepare_v3`. */
    method Call() returns (rc: int)
      modifies this`log
      ensures rc == attempts(now).rc && log == old(log) + [Called]
    {
      rc := attempts(now).rc;
      log := log + [Called];
    }

    method IsLockedNow(rc: int) returns (locked: bool)
      requires rc == attempts(now).rc
      ensures locked == IsLocked(attempts(now))
    {
      locked := rc == SQLITE_LOCKED_SHAREDCACHE
                || (LowByte(rc) == SQLITE_LOCKED && attempts(now).extended == SQLITE_LOCKED_SHAREDCACHE);
    }

    /** Blocks only if SQLite accepts the registration; the next call is then a new attempt. */
    method WaitForUnlockNotify() returns (rc: int)
      modifies this
      ensures rc == attempts(old(now)).wait && log == old(log) + [Waited(rc)]
      ensures now == if rc == SQLITE_OK then old(now) + 1 else old(now)
    {
      rc := attempts(now).wait;
      log := log + [Waited(rc)];
      if rc == SQLITE_OK {
        now := now + 1;
      }
    }

    method ResetStatement()
      modifies this`log
      ensures log == old(log) + [Reset]
    {
      log := log + [Reset];
    }

    /** `RawStatement::step`: it leaves early on every code that is not some kind of lock, and still
        stops where the plain loop does. */
    method Step(ghost last: nat) returns (rc: int)
      requires now <= last && !Retries(attempts(last))
      modifies this
      ensures var stop := FirstStop(attempts, old(now), last);
              && now == stop
              && (if IsLocked(attempts(stop)) then rc == attempts(stop).wait && rc != 0 else rc == attempts(stop).rc)
              && log == old(log) + RetryLog(stop - old(now), true) + LastLog(attempts(stop))
    {
      while true
        invariant old(now) <= now <= last
        invariant forall i: nat :: old(now) <= i < now ==> Retries(attempts(i))
        invariant FirstStop(attempts, now, last) == FirstStop(attempts, old(now), last)
        invariant log == old(log) + RetryLog(now - old(now), true)
        decreases last - now
      {
        ghost var before := log;
        rc := Call();
        if LowByte(rc) != SQLITE_LOCKED {
          EarlyExitIsSound(attempts(now));
          break;
        }
        var locked := IsLockedNow(rc);
        if !locked {
          break;
        }
        rc := WaitForUnlockNotify();
        if rc != SQLITE_OK {
          assert log == before + [Called, Waited(rc)];
          break;
        }
        ResetStatement();
        assert log == before + [Called, Waited(SQLITE_OK)] + [Reset];
      }
    }

    /** The loop in `InnerConnection::prepare`, which has nothing to reset. */
    method Prepare(ghost last: nat) returns (rc: int)
      requires now <= last && !Retries(attempts(last))
      modifies this
      ensures var stop := FirstStop(attempts, old(now), last);
              && now == stop
              && (if IsLocked(attempts(stop)) then rc == attempts(stop).wait && rc != 0 else rc == attempts(stop).rc)
              && log == old(log) + RetryLog(stop - old(now), false) + LastLog(attempts(stop))
    {
      while true
        invariant old(now) <= now <= last
        invariant forall i: nat :: old(now) <= i < now ==> Retries(attempts(i))
        invariant FirstStop(attempts, now, last) == FirstStop(attempts, old(now), last)
        invariant log == old(log) + RetryLog(now - old(now), false)
        decreases last - now
      {
        ghost var before := log;
        rc := Call();
        var locked := IsLockedNow(rc);
        if !locked {
          break;
        }
        rc := WaitForUnlockNotify();
        if rc != SQLITE_OK {
          assert log == before + [Called, Waited(rc)];
          break;
        }
        assert log == before + [Called, Waited(SQLITE_OK)] + [];
      }
    }
  }

  /** The stopping point does not depend on how late the known last attempt is. */
  lemma {:induction false} StopIsFirst(attempts: nat -> Attempt, from: nat, last: nat, later: nat)
    requires from <= last && !Retries(attempts(last))
    requires from <= later && !Retries(attempts(later))
    ensures FirstStop(attempts, from, last) == FirstStop(attempts, from, later)
  {
    var a, b := FirstStop(attempts, from, last), FirstStop(attempts, from, later);
    assert !Retries(attempts(a)) && !Retries(attempts(b));
  }
}
