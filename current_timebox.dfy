/**
 * The CurrentTimebox component (src/components/pozostale.js:51-129) as an
 * object whose handlers update its fields in place. Each handler is proved
 * to perform the transition of the same name in module RunState, and to
 * keep the invariants stated there; the button guards are the handlers'
 * preconditions.
 */
module Timer {
  import opened RunState

  class CurrentTimebox {
    var isRunning: bool
    var isPaused: bool
    var pausesCount: nat
    var elapsedTenths: nat
    /** intervalId names an interval that has not been cleared. */
    var ticking: bool
    /** Registered intervals whose id was overwritten; none while the guards hold. */
    var orphaned: nat

    /** The component's state as a value. */
    function Snapshot(): State
      reads this
    {
      State(isRunning, isPaused, pausesCount, elapsedTenths, ticking, orphaned)
    }

    ghost predicate Valid()
      reads this
    {
      Inv(Snapshot())
    }

    constructor ()
      ensures Snapshot() == Initial()
      ensures Valid()
    {
      isRunning, isPaused, pausesCount, elapsedTenths := false, false, 0, 0;
      ticking, orphaned := false, 0;
    }

    /** startTimer: registers a new interval, orphaning the one whose id it overwrites. */
    method StartTimer()
      modifies this
      ensures Snapshot() == RunState.StartTimer(old(Snapshot()))
    {
      if ticking {
        orphaned := orphaned + 1;
      }
      ticking := true;
    }

    /** stopTimer: clears the interval whose id is stored. */
    method StopTimer()
      modifies this
      ensures Snapshot() == RunState.StopTimer(old(Snapshot()))
    {
      ticking := false;
    }

    /** handleStart; the Start button is disabled while running. */
    method HandleStart()
      requires Valid()
      requires !isRunning
      modifies this
      ensures Snapshot() == Start(old(Snapshot()))
      ensures Valid() && isRunning && !isPaused && ticking
    {
      isRunning := true;
      StartTimer();
    }

    /** handleStop; the Stop button is disabled while not running. */
    method HandleStop()
      requires Valid()
      requires isRunning
      modifies this
      ensures Snapshot() == Stop(old(Snapshot()))
      ensures Snapshot() == Initial() && Valid()
    {
      isRunning, isPaused, pausesCount, elapsedTenths := false, false, 0, 0;
      StopTimer();
    }

    /** togglePause; the Pause/Resume button is disabled while not running. */
    method TogglePause()
      requires Valid()
      requires isRunning
      modifies this
      ensures Snapshot() == RunState.TogglePause(old(Snapshot()))
      ensures Valid()
      ensures isPaused == !old(isPaused) && ticking == !isPaused
      ensures pausesCount == if isPaused then old(pausesCount) + 1 else old(pausesCount)
    {
      var paused := !isPaused;
      if paused {
        StopTimer();
      } else {
        StartTimer();
      }
      isPaused := paused;
      pausesCount := if paused then pausesCount + 1 else pausesCount;
    }

    /** The interval callback; it only fires while the tick source is live. */
    method Tick()
      requires Valid()
      requires ticking
      modifies this
      ensures Snapshot() == RunState.Tick(old(Snapshot()))
      ensures Valid() && elapsedTenths == old(elapsedTenths) + 1
    {
      elapsedTenths := elapsedTenths + 1;
    }

    /** The minutes the clock shows for a timebox of the given length. */
    method MinutesLeft(totalTimeInMinutes: nat) returns (m: int)
      ensures m == RunState.MinutesLeft(totalTimeInMinutes, elapsedTenths)
      ensures elapsedTenths <= totalTimeInMinutes * TenthsPerMinute ==> m >= 0
      ensures elapsedTenths > totalTimeInMinutes * TenthsPerMinute ==> m < 0
    {
      m := TimeLeftTenths(totalTimeInMinutes, elapsedTenths) / TenthsPerMinute;
      if elapsedTenths <= totalTimeInMinutes * TenthsPerMinute {
        ClockBeforeDeadline(totalTimeInMinutes, elapsedTenths);
      } else {
        ClockAfterDeadline(totalTimeInMinutes, elapsedTenths);
      }
    }

    /** The seconds the clock shows for a timebox of the given length. */
    method SecondsLeft(totalTimeInMinutes: nat) returns (sec: int)
      ensures sec == RunState.SecondsLeft(totalTimeInMinutes, elapsedTenths)
      ensures elapsedTenths <= totalTimeInMinutes * TenthsPerMinute ==> 0 <= sec < 60
      ensures -60 <= sec < 60
    {
      var timeLeft := TimeLeftTenths(totalTimeInMinutes, elapsedTenths);
      sec := TruncRem(timeLeft, TenthsPerMinute) / 10;
      if elapsedTenths <= totalTimeInMinutes * TenthsPerMinute {
        ClockBeforeDeadline(totalTimeInMinutes, elapsedTenths);
      } else {
        ClockAfterDeadline(totalTimeInMinutes, elapsedTenths);
      }
    }
  }
}
