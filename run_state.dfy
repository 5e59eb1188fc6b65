/**
 * The run state of one mounted CurrentTimebox (src/components/pozostale.js:51-129),
 * as values: the transitions its handlers perform, the button guards that
 * enable them, the invariants every reachable state keeps, and the remaining
 * time its render shows.
 *
 * Elapsed time is kept in whole tenths of a second: every interval callback
 * adds exactly 0.1 s, so `elapsedTenths` is `elapsedTimeInSeconds * 10`.
 *
 * The window.setInterval handle is abstracted by two components:
 *   - `ticking`: `intervalId` names an interval that has not been cleared;
 *   - `orphaned`: intervals that were registered and whose id was then
 *     overwritten by another startTimer, so that no clearInterval can ever
 *     reach them again.
 */
module RunState {

  datatype State = State(
    isRunning: bool,
    isPaused: bool,
    pausesCount: nat,
    elapsedTenths: nat,
    ticking: bool,
    orphaned: nat
  )

  /** The four things that can happen to the machine. */
  datatype Event = StartPressed | StopPressed | PausePressed | IntervalFired

  /** Number of registered intervals still firing. */
  function LiveIntervals(s: State): nat {
    (if s.ticking then 1 else 0) + s.orphaned
  }

  /** The state set up by the constructor; no interval registered yet. */
  function Initial(): State {
    State(false, false, 0, 0, false, 0)
  }

  /** The invariants that hold in every state the guarded buttons can reach. */
  ghost predicate Inv(s: State) {
    && (s.isPaused ==> s.isRunning)
    && (s.ticking <==> s.isRunning && !s.isPaused)
    && s.orphaned == 0
  }

  // ---------------------------------------------------------------------
  // The tick source
  // ---------------------------------------------------------------------

  /** startTimer: registers a fresh interval and stores its id, overwriting (and so orphaning) a live one. */
  function StartTimer(s: State): (r: State)
    ensures r.ticking
    ensures LiveIntervals(r) == LiveIntervals(s) + 1
    ensures r.orphaned == (if s.ticking then s.orphaned + 1 else s.orphaned)
    ensures r.(ticking := s.ticking, orphaned := s.orphaned) == s
  {
    s.(orphaned := if s.ticking then s.orphaned + 1 else s.orphaned, ticking := true)
  }

  /** stopTimer: clears the interval whose id is stored; an orphaned one keeps firing. */
  function StopTimer(s: State): (r: State)
    ensures !r.ticking
    ensures LiveIntervals(r) == s.orphaned
    ensures r.(ticking := s.ticking) == s
  {
    s.(ticking := false)
  }

  // ---------------------------------------------------------------------
  // The handlers
  // ---------------------------------------------------------------------

  /** handleStart: marks the machine running and starts the tick source; isPaused is left as it was. */
  function Start(s: State): (r: State)
    ensures r.isRunning && r.ticking
    ensures r.isPaused == s.isPaused && r.pausesCount == s.pausesCount && r.elapsedTenths == s.elapsedTenths
    ensures LiveIntervals(r) == LiveIntervals(s) + 1
  {
    StartTimer(s.(isRunning := true))
  }

  /**
   * handleStop: a full reset to the constructor's values, then stopTimer.
   * Only the interval named by intervalId is cleared.
   */
  function Stop(s: State): (r: State)
    ensures s.orphaned == 0 ==> r == Initial()
    ensures r == Initial().(orphaned := s.orphaned)
    ensures LiveIntervals(r) == s.orphaned
  {
    StopTimer(s.(isRunning := false, isPaused := false, pausesCount := 0, elapsedTenths := 0))
  }

  /**
   * togglePause: flips isPaused; entering a pause stops the tick source and
   * counts one more pause, leaving it restarts the tick source.
   */
  function TogglePause(s: State): (r: State)
    ensures r.isPaused == !s.isPaused
    ensures r.pausesCount == if r.isPaused then s.pausesCount + 1 else s.pausesCount
    ensures r.isRunning == s.isRunning && r.elapsedTenths == s.elapsedTenths
    ensures r.ticking == !r.isPaused
    ensures LiveIntervals(r) == if r.isPaused then s.orphaned else LiveIntervals(s) + 1
  {
    var isPaused := !s.isPaused;
    var t := if isPaused then StopTimer(s) else StartTimer(s);
    t.(isPaused := isPaused,
       pausesCount := if isPaused then s.pausesCount + 1 else s.pausesCount)
  }

  /** The interval callback: one tenth of a second more, nothing else changes. */
  function Tick(s: State): (r: State)
    ensures r.elapsedTenths == s.elapsedTenths + 1
    ensures r.(elapsedTenths := s.elapsedTenths) == s
  {
    s.(elapsedTenths := s.elapsedTenths + 1)
  }

  // ---------------------------------------------------------------------
  // Guards, steps and traces
  // ---------------------------------------------------------------------

  /**
   * When an event can happen: Start is disabled while running, Stop and
   * Pause/Resume while not running (the buttons' disabled attributes), and
   * the callback fires only while some interval is live.
   */
  predicate Enabled(s: State, e: Event) {
    match e
    case StartPressed => !s.isRunning
    case StopPressed => s.isRunning
    case PausePressed => s.isRunning
    case IntervalFired => LiveIntervals(s) > 0
  }

  function Step(s: State, e: Event): (r: State)
    ensures Inv(s) && Enabled(s, e) ==> Inv(r)
    ensures e != StopPressed ==> r.elapsedTenths >= s.elapsedTenths
    ensures r.elapsedTenths > s.elapsedTenths ==> e == IntervalFired && r.elapsedTenths == s.elapsedTenths + 1
  {
    match e
    case StartPressed => Start(s)
    case StopPressed => Stop(s)
    case PausePressed => TogglePause(s)
    case IntervalFired => Tick(s)
  }

  /** The state after applying the events in order. */
  function Run(s: State, es: seq<Event>): State
    decreases |es|
  {
    if es == [] then s else Run(Step(s, es[0]), es[1..])
  }

  /** Every event of the trace is enabled when it happens. */
  predicate Admissible(s: State, es: seq<Event>)
    decreases |es|
  {
    es == [] || (Enabled(s, es[0]) && Admissible(Step(s, es[0]), es[1..]))
  }

  /** Number of interval callbacks in a trace. */
  function Ticks(es: seq<Event>): nat
    decreases |es|
  {
    if es == [] then 0 else (if es[0] == IntervalFired then 1 else 0) + Ticks(es[1..])
  }

  // ---------------------------------------------------------------------
  // Properties
  // ---------------------------------------------------------------------

  /** The invariants hold after any admissible trace that starts in a state that has them. */
  lemma {:induction false} InvPreserved(s: State, es: seq<Event>)
    requires Inv(s) && Admissible(s, es)
    ensures Inv(Run(s, es))
    decreases |es|
  {
    if es != [] {
      InvPreserved(Step(s, es[0]), es[1..]);
    }
  }

  /**
   * Under the guards, every reachable state has isPaused ==> isRunning, a
   * live tick source exactly while running and not paused, and at most one
   * registered interval.
   */
  lemma Reachable(es: seq<Event>)
    requires Admissible(Initial(), es)
    ensures var s := Run(Initial(), es);
      && (s.isPaused ==> s.isRunning)
      && (s.ticking <==> s.isRunning && !s.isPaused)
      && LiveIntervals(s) <= 1
      && (LiveIntervals(s) == 1 <==> s.isRunning && !s.isPaused)
  {
    InvPreserved(Initial(), es);
  }

  /** Whatever the state before, Stop leaves the constructor's state once no interval was orphaned. */
  lemma StopResets(s: State)
    requires Inv(s)
    ensures Stop(s) == Initial()
    ensures LiveIntervals(Stop(s)) == 0
  {
  }

  /** An interval only fires while the machine is running and not paused. */
  lemma TickOnlyWhileRunning(s: State)
    requires Inv(s) && Enabled(s, IntervalFired)
    ensures s.isRunning && !s.isPaused
  {
  }

  /** Pause then resume (or resume then pause) restores everything but one more pause. */
  lemma TogglePauseTwice(s: State)
    requires Inv(s) && s.isRunning
    ensures TogglePause(TogglePause(s)) == s.(pausesCount := s.pausesCount + 1)
  {
  }

  /**
   * Between stops elapsed time only grows, and it grows by exactly one
   * tenth of a second per interval callback.
   */
  lemma {:induction false} ElapsedCountsTicks(s: State, es: seq<Event>)
    requires StopPressed !in es
    ensures Run(s, es).elapsedTenths == s.elapsedTenths + Ticks(es)
    decreases |es|
  {
    if es != [] {
      assert es[0] in es;
      assert forall e :: e in es[1..] ==> e in es;
      ElapsedCountsTicks(Step(s, es[0]), es[1..]);
    }
  }

  /**
   * Without the Start guard, Start on a running machine breaks the
   * invariants: while ticking it orphans the live interval, so two fire;
   * while paused it restarts the tick source, which fires although the
   * machine still shows paused.
   */
  lemma UnguardedStartOrphansInterval(s: State)
    requires Inv(s) && s.isRunning
    ensures !Enabled(s, StartPressed)
    ensures !s.isPaused ==> LiveIntervals(Start(s)) == 2 && !Inv(Start(s))
    ensures s.isPaused ==> LiveIntervals(Start(s)) == 1 && Start(s).isPaused && !Inv(Start(s))
  {
  }

  // ---------------------------------------------------------------------
  // Remaining time, as render computes it
  // ---------------------------------------------------------------------

  const TenthsPerMinute: nat := 600

  /** timeLeftInSeconds, in tenths; negative once the timer overruns (no clamp). */
  function TimeLeftTenths(totalTimeInMinutes: nat, elapsedTenths: nat): int {
    totalTimeInMinutes * TenthsPerMinute - elapsedTenths
  }

  /** JavaScript's `%`: the remainder of division truncated toward zero, with the dividend's sign. */
  function TruncRem(a: int, b: int): (r: int)
    requires b > 0
    ensures a >= 0 ==> 0 <= r < b
    ensures a < 0 ==> -b < r <= 0
    ensures a != 0 && r != 0 ==> (a < 0 <==> r < 0)
    ensures (a - r) % b == 0
  {
    if a >= 0 then
      var q := a / b;
      assert a - a % b == q * b;
      MultipleModZero(q, b);
      a % b
    else
      var q := (-a) / b;
      assert -a == q * b + (-a) % b;
      assert a + (-a) % b == (-q) * b;
      MultipleModZero(-q, b);
      -((-a) % b)
  }

  /** A multiple of b leaves no remainder. */
  lemma MultipleModZero(q: int, b: int)
    requires b > 0
    ensures (q * b) % b == 0
  {
    var x := q * b;
    var k := q - x / b;
    assert x == (x / b) * b + x % b;
    assert k * b == x % b;
  }

  /** Math.floor(timeLeftInSeconds / 60); Dafny's `/` by a positive divisor rounds toward minus infinity. */
  function MinutesLeft(totalTimeInMinutes: nat, elapsedTenths: nat): int {
    TimeLeftTenths(totalTimeInMinutes, elapsedTenths) / TenthsPerMinute
  }

  /** Math.floor(timeLeftInSeconds % 60), with JavaScript's truncated `%`. */
  function SecondsLeft(totalTimeInMinutes: nat, elapsedTenths: nat): int {
    TruncRem(TimeLeftTenths(totalTimeInMinutes, elapsedTenths), TenthsPerMinute) / 10
  }

  /** 20 minutes and 50 ticks show 19:55. */
  lemma ClockExample()
    ensures MinutesLeft(20, 50) == 19 && SecondsLeft(20, 50) == 55
  {
  }

  /**
   * Before the deadline the clock shows whole minutes and seconds 0..59 that
   * together make the whole seconds remaining.
   */
  lemma ClockBeforeDeadline(totalTimeInMinutes: nat, elapsedTenths: nat)
    requires elapsedTenths <= totalTimeInMinutes * TenthsPerMinute
    ensures var m, sec := MinutesLeft(totalTimeInMinutes, elapsedTenths), SecondsLeft(totalTimeInMinutes, elapsedTenths);
      && 0 <= m && 0 <= sec < 60
      && m * 60 + sec == TimeLeftTenths(totalTimeInMinutes, elapsedTenths) / 10
  {
    var t := TimeLeftTenths(totalTimeInMinutes, elapsedTenths);
    var m := t / TenthsPerMinute;
    var rem := t % TenthsPerMinute;
    assert t == m * 600 + rem;
    assert rem / 10 < 60;
    assert t / 10 == m * 60 + rem / 10;
  }

  /** After the deadline the minutes go negative and the seconds lie in -60..0. */
  lemma ClockAfterDeadline(totalTimeInMinutes: nat, elapsedTenths: nat)
    requires elapsedTenths > totalTimeInMinutes * TenthsPerMinute
    ensures MinutesLeft(totalTimeInMinutes, elapsedTenths) < 0
    ensures -60 <= SecondsLeft(totalTimeInMinutes, elapsedTenths) <= 0
  {
  }
}
