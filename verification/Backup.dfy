/**
 Online backup (src/backup.rs): `backup`, `restore` and `run_to_completion` around SQLite's page copier,
 for a source whose number of pages does not change. What stands in the way of each step is arbitrary.
 */
module Backups {
  import opened Wrappers

  datatype Weather = Clear | SourceBusy | SourceLocked | Broken(code: int)

  datatype StepResult = Done | More | Busy | Locked

  datatype Error = BusyError | LockedError | SqliteError(code: int)

  const PAGES_PER_STEP: nat := 100

  function Count(weather: nat -> Weather, n: nat, w: Weather): nat {
    if n == 0 then 0 else Count(weather, n - 1, w) + (if weather(n - 1) == w then 1 else 0)
  }

  function Least(a: nat, b: nat): nat {
    if a < b then a else b
  }

  /** After `n` steps, one has broken or enough of them have copied. */
  predicate Over(weather: nat -> Weather, total: nat, pagesPerStep: int, n: nat) {
    || (exists i: nat :: i < n && weather(i).Broken?)
    || (Count(weather, n, Clear) > 0 && pagesPerStep * Count(weather, n, Clear) >= total)
  }

  class Backup {
    const total: nat
    const weather: nat -> Weather
    var copied: nat
    var steps: nat

    constructor (total: nat, weather: nat -> Weather)
      ensures this.total == total && this.weather == weather && copied == 0 && steps == 0
    {
      this.total := total;
      this.weather := weather;
      copied, steps := 0, 0;
    }

    /** A negative number of pages means all that are left. */
    method Step(pages: int) returns (r: Result<StepResult, Error>)
      modifies this
      ensures steps == old(steps) + 1
      ensures match weather(old(steps))
              case Clear =>
                && copied == (if pages < 0 then total else Least(old(copied) + pages, total))
                && r == Ok(if copied == total then Done else More)
              case SourceBusy => copied == old(copied) && r == Ok(Busy)
              case SourceLocked => copied == old(copied) && r == Ok(Locked)
              case Broken(code) => copied == old(copied) && r == Err(SqliteError(code))
    {
      var now := weather(steps);
      steps := steps + 1;
      match now {
        case Clear =>
          copied := if pages < 0 || copied + pages > total then total else copied + pages;
          r := Ok(if copied == total then Done else More);
        case SourceBusy => r := Ok(Busy);
        case SourceLocked => r := Ok(Locked);
        case Broken(code) => r := Err(SqliteError(code));
      }
    }

    /** Gives up at the first step that is refused. */
    method RunBackup() returns (r: Result<(), Error>)
      requires copied == 0 && steps == 0
      modifies this
      ensures 0 < steps <= if total == 0 then 1 else (total + 99) / 100
      ensures forall i: nat :: i < steps - 1 ==> weather(i) == Clear
      ensures r.Ok? <==> weather(steps - 1) == Clear
      ensures r.Ok? ==> copied == total
      ensures r.Err? && total > 0 ==> copied < total
      ensures weather(steps - 1) == SourceBusy ==> r == Err(BusyError)
      ensures weather(steps - 1) == SourceLocked ==> r == Err(LockedError)
      ensures weather(steps - 1).Broken? ==> r == Err(SqliteError(weather(steps - 1).code))
    {
      var s := More;
      while s == More
        invariant s != More ==> steps > 0
        invariant copied == Least(PAGES_PER_STEP * (if s == Done || s == More then steps else steps - 1), total)
        invariant s == More && steps > 0 ==> copied < total
        invariant s == More ==> forall i: nat :: i < steps ==> weather(i) == Clear
        invariant s != More ==> forall i: nat :: i < steps - 1 ==> weather(i) == Clear
        invariant s != More && steps > 1 ==> PAGES_PER_STEP * (steps - 1) < total
        invariant s == Done ==> weather(steps - 1) == Clear && copied == total
        invariant s == Busy ==> weather(steps - 1) == SourceBusy
        invariant s == Locked ==> weather(steps - 1) == SourceLocked
        invariant (s == Busy || s == Locked) && total > 0 ==> copied < total
        decreases s == More, total - copied + (if steps == 0 then 1 else 0)
      {
        var next := Step(PAGES_PER_STEP);
        if next.Err? {
          return Err(next.error);
        }
        s := next.value;
      }
      match s {
        case Done => r := Ok(());
        case Busy => r := Err(BusyError);
        case Locked => r := Err(LockedError);
        case More => assert false;
      }
    }

    /** Retries a busy source twice. All steps but at most two of them copy, at most three meet a busy
        source, and it succeeds exactly when every page is copied. */
    method Restore() returns (r: Result<(), Error>)
      requires copied == 0 && steps == 0
      modifies this
      ensures steps <= (if total == 0 then 1 else (total + 99) / 100) + 2
      ensures Count(weather, steps, SourceBusy) <= 3
      ensures copied == Least(100 * Count(weather, steps, Clear), total)
      ensures 0 < steps && (r.Ok? <==> weather(steps - 1) == Clear)
      ensures r.Ok? ==> copied == total
      ensures r.Err? && total > 0 ==> copied < total
      ensures r == Err(BusyError) <==> Count(weather, steps, SourceBusy) == 3
      ensures r == Err(LockedError) <==> weather(steps - 1) == SourceLocked
      ensures weather(steps - 1).Broken? ==> r == Err(SqliteError(weather(steps - 1).code))
    {
      var s := More;
      var busyCount := 0;
      while s == More || s == Busy
        invariant 0 <= busyCount < 3 && busyCount == Count(weather, steps, SourceBusy)
        invariant copied == Least(PAGES_PER_STEP * Count(weather, steps, Clear), total)
        invariant s == More || s == Busy ==> steps == Count(weather, steps, Clear) + busyCount
        invariant s == Done || s == Locked ==> 0 < steps
        invariant s == Done ==> steps == Count(weather, steps, Clear) + busyCount && weather(steps - 1) == Clear
        invariant s == Done ==> copied == total
        invariant s == Done ==>
                    PAGES_PER_STEP * (Count(weather, steps, Clear) - 1) < total || Count(weather, steps, Clear) == 1
        invariant s == Locked ==> steps == Count(weather, steps, Clear) + busyCount + 1
        invariant s == Locked ==> weather(steps - 1) == SourceLocked
        invariant s != Done && (Count(weather, steps, Clear) > 0 || total > 0) ==> copied < total
        decreases s == More || s == Busy, total - copied + (if copied == total then 1 else 0), 3 - busyCount
      {
        var next := Step(PAGES_PER_STEP);
        if next.Err? {
          return Err(next.error);
        }
        s := next.value;
        if s == Busy {
          busyCount := busyCount + 1;
          if busyCount >= 3 {
            break;
          }
        }
      }
      match s {
        case Done => r := Ok(());
        case Busy => r := Err(BusyError);
        case Locked => r := Err(LockedError);
        case More => assert false;
      }
    }

    /** Goes on through busy and locked sources until everything is copied or a step breaks, which is all
        it takes to end: by some step, one broke or enough of them copied. The steps that copied are just
        enough, and it is over at the first chance. */
    method RunToCompletion(pagesPerStep: int, ghost last: nat) returns (r: Result<(), Error>)
      requires pagesPerStep > 0 && copied == 0 && steps == 0
      requires Over(weather, total, pagesPerStep, last)
      modifies this
      ensures 0 < steps <= last && (r.Ok? <==> weather(steps - 1) == Clear)
      ensures Over(weather, total, pagesPerStep, steps)
      ensures forall i: nat :: i < steps ==> !Over(weather, total, pagesPerStep, i)
      ensures r.Ok? ==> copied == total
      ensures r.Err? ==> weather(steps - 1).Broken? && r == Err(SqliteError(weather(steps - 1).code))
      ensures var c := Count(weather, steps, Clear);
              && (r.Ok? ==> pagesPerStep * c >= total && (c == 1 || pagesPerStep * (c - 1) < total))
              && (r.Err? ==> copied == pagesPerStep * c)
    {
      while true
        invariant copied == pagesPerStep * Count(weather, steps, Clear)
        invariant Count(weather, steps, Clear) > 0 ==> copied < total
        invariant forall i: nat :: i < steps ==> !weather(i).Broken?
        invariant forall i: nat :: i <= steps ==> !Over(weather, total, pagesPerStep, i)
        invariant steps < last
        decreases last - steps
      {
        ghost var c := Count(weather, steps, Clear);
        assert pagesPerStep * (c + 1) == pagesPerStep * c + pagesPerStep;
        var next := Step(pagesPerStep);
        if next.Err? {
          return Err(next.error);
        }
        if next.value == Done {
          return Ok(());
        }
      }
    }
  }
}
